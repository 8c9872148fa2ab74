/** What the inbound loop promises over whole runs (`read_inbound` in src/link.rs). */
module InboundTheorems {
  import opened DigMessages
  import opened Channels
  import opened Inbound

  // ---------------------------------------------------------------------------------------------
  // The application cannot hold replies up
  // ---------------------------------------------------------------------------------------------

  predicate IsAppSide(h: Happening) {
    h.Drained? || h.HungUp?
  }

  /** A run without the application's side. */
  function WithoutApp(script: seq<Happening>): seq<Happening> {
    if script == [] then [] else
    var n := |script| - 1;
    if IsAppSide(script[n]) then WithoutApp(script[..n]) else WithoutApp(script[..n]) + [script[n]]
  }

  /** What became of a message, not telling apart what the application was or was not able to take. */
  datatype Heading = ToCaller(sender: nat, message: DigMessage) | PassedOn(message: DigMessage)

  function HeadingOf(f: Fate): Heading {
    if f.ToWaiter? then ToCaller(f.sender, f.message) else PassedOn(f.message)
  }

  function Headings(fates: seq<Fate>): (ds: seq<Heading>)
    ensures |ds| == |fates|
    ensures forall i | 0 <= i < |fates| :: ds[i] == HeadingOf(fates[i])
  {
    if fates == [] then [] else Headings(fates[..|fates| - 1]) + [HeadingOf(fates[|fates| - 1])]
  }

  lemma HeadingsAppend(fates: seq<Fate>, f: Fate)
    ensures Headings(fates + [f]) == Headings(fates) + [HeadingOf(f)]
  {
    assert (fates + [f])[..|fates|] == fates;
  }

  /** Two worlds that differ at most on the application's side. */
  ghost predicate AlikeButForApp(w: World, w': World) {
    w.reading == w'.reading && w.table == w'.table && Headings(w.fates) == Headings(w'.fates)
  }

  lemma AppSideInvisible(w: World, h: Happening)
    requires IsAppSide(h)
    ensures AlikeButForApp(w, Happen(w, h))
  {
  }

  lemma AlikeFate(w: World, w': World, m: DigMessage)
    requires w.table == w'.table
    ensures HeadingOf(FateOf(w, m)) == HeadingOf(FateOf(w', m))
  {
  }

  lemma AlikeRouted(w: World, w': World, m: DigMessage)
    requires AlikeButForApp(w, w')
    ensures AlikeButForApp(Routed(w, m), Routed(w', m))
  {
    var f, f' := FateOf(w, m), FateOf(w', m);
    AlikeFate(w, w', m);
    HeadingsAppend(w.fates, f);
    HeadingsAppend(w'.fates, f');
  }

  lemma AlikeRead(w: World, w': World, frame: WsFrame)
    requires AlikeButForApp(w, w')
    ensures AlikeButForApp(Read(w, frame), Read(w', frame))
  {
    if frame.Binary? {
      var decoded := Decode(frame.bytes);
      if decoded.Some? {
        AlikeRouted(w, w', decoded.value);
      }
    }
  }

  lemma {:induction false} AlikeStep(w: World, w': World, h: Happening)
    requires AlikeButForApp(w, w') && !IsAppSide(h)
    ensures AlikeButForApp(Happen(w, h), Happen(w', h))
  {
    match h
    case Arrived(frame) => AlikeRead(w, w', frame);
    case Used(op) =>
  }

  lemma {:induction false} AppErased(w: World, w': World, script: seq<Happening>)
    requires AlikeButForApp(w, w')
    ensures AlikeButForApp(Unfold(w, script), Unfold(w', WithoutApp(script)))
  {
    if script != [] {
      var n := |script| - 1;
      AppErased(w, w', script[..n]);
      if IsAppSide(script[n]) {
        AppSideInvisible(Unfold(w, script[..n]), script[n]);
      } else {
        AlikeStep(Unfold(w, script[..n]), Unfold(w', WithoutApp(script[..n])), script[n]);
        UnfoldAppend(w', WithoutApp(script[..n]), script[n]);
      }
    }
  }

  lemma UnfoldAppend(w: World, script: seq<Happening>, h: Happening)
    ensures Unfold(w, script + [h]) == Happen(Unfold(w, script), h)
  {
    assert (script + [h])[..|script|] == script;
  }

  /**
   * Two runs with the same frames and the same use of the request map, however the application drains or fails
   * to drain its channel in each, however full that is, end with the same request map, and answer the same
   * waiters with the same messages at the same frames.
   */
  lemma {:induction false} DrainNoninterference(w: World, w': World, script: seq<Happening>, script': seq<Happening>)
    requires w.reading == w'.reading && w.table == w'.table && w.fates == w'.fates
    requires WithoutApp(script) == WithoutApp(script')
    ensures var end, end' := Unfold(w, script), Unfold(w', script');
            && end.table == end'.table && end.reading == end'.reading
            && Headings(end.fates) == Headings(end'.fates)
  {
    AppErased(w, w', script);
    AppErased(w', w', script');
  }

  // ---------------------------------------------------------------------------------------------
  // Every message goes somewhere, once
  // ---------------------------------------------------------------------------------------------

  /** What a reader decodes from one happening: at most one message. */
  function DecodedIn(h: Happening): seq<DigMessage> {
    if h.Arrived? && h.frame.Binary? && Decode(h.frame.bytes).Some? then [Decode(h.frame.bytes).value] else []
  }

  /** The messages a reader decodes from a script, up to where it stops. */
  function DecodedFrom(script: seq<Happening>): seq<DigMessage> {
    if script == [] then [] else
    var n := |script| - 1;
    DecodedFrom(script[..n]) + if Stopped(script[..n]) then [] else DecodedIn(script[n])
  }

  predicate Stopped(script: seq<Happening>) {
    exists i | 0 <= i < |script| :: script[i] == Arrived(Close) || script[i] == Arrived(Failed)
  }

  function Messages(fates: seq<Fate>): seq<DigMessage> {
    if fates == [] then [] else Messages(fates[..|fates| - 1]) + [fates[|fates| - 1].message]
  }

  function QueuedOf(fates: seq<Fate>): seq<DigMessage> {
    if fates == [] then [] else
    var f := fates[|fates| - 1];
    QueuedOf(fates[..|fates| - 1]) + if f.Queued? then [f.message] else []
  }

  lemma FatesAppend(fates: seq<Fate>, f: Fate)
    ensures Messages(fates + [f]) == Messages(fates) + [f.message]
    ensures QueuedOf(fates + [f]) == QueuedOf(fates) + if f.Queued? then [f.message] else []
  {
    assert (fates + [f])[..|fates|] == fates;
  }

  /** A world's books after `decoded` has been read: one fate each, in order, and what was queued is with the application or on its way. */
  ghost predicate Balanced(w: World, decoded: seq<DigMessage>) {
    && Messages(w.fates) == decoded
    && w.received + w.queue == QueuedOf(w.fates)
    && |w.queue| <= 32
  }

  lemma StoppedStep(script: seq<Happening>, n: nat)
    requires |script| == n + 1
    ensures Stopped(script) <==> Stopped(script[..n]) || script[n] == Arrived(Close) || script[n] == Arrived(Failed)
  {
    if Stopped(script[..n]) {
      var i :| 0 <= i < n && (script[..n][i] == Arrived(Close) || script[..n][i] == Arrived(Failed));
      assert script[i] == script[..n][i];
    }
    if Stopped(script) {
      var i :| 0 <= i < |script| && (script[i] == Arrived(Close) || script[i] == Arrived(Failed));
      assert i < n ==> script[..n][i] == script[i];
    }
  }

  lemma RoutedBalances(w: World, decoded: seq<DigMessage>, m: DigMessage)
    requires Balanced(w, decoded)
    ensures Balanced(Routed(w, m), decoded + [m])
  {
    FatesAppend(w.fates, FateOf(w, m));
  }

  lemma ReadBalances(w: World, decoded: seq<DigMessage>, frame: WsFrame)
    requires Balanced(w, decoded)
    ensures Balanced(Read(w, frame), decoded + DecodedIn(Arrived(frame)))
  {
    if frame.Binary? && Decode(frame.bytes).Some? {
      RoutedBalances(w, decoded, Decode(frame.bytes).value);
    } else {
      assert decoded + [] == decoded;
    }
  }

  lemma DrainBalances(w: World, decoded: seq<DigMessage>)
    requires Balanced(w, decoded)
    ensures Balanced(Happen(w, Drained), decoded)
  {
    if w.queue != [] {
      assert w.received + w.queue == (w.received + [w.queue[0]]) + w.queue[1..];
    }
  }

  lemma HappenBalances(w: World, decoded: seq<DigMessage>, h: Happening)
    requires Balanced(w, decoded)
    ensures Balanced(Happen(w, h), decoded + if w.reading then DecodedIn(h) else [])
  {
    assert decoded + [] == decoded;
    match h
    case Arrived(frame) => ReadBalances(w, decoded, frame);
    case Used(op) =>
    case Drained => DrainBalances(w, decoded);
    case HungUp =>
  }

  lemma ReadingStep(w: World, h: Happening)
    ensures Happen(w, h).reading <==> w.reading && h != Arrived(Close) && h != Arrived(Failed)
  {
  }

  /**
   * Over any run each decodable frame, and nothing else, is routed to exactly one of its waiter, the queue, or a
   * drop; the application gets the queued ones in arrival order; and never more than 32 are waiting for it.
   */
  lemma {:induction false} RoutingConservation(script: seq<Happening>)
    ensures var w := Unfold(START, script);
            w.reading == !Stopped(script) && Balanced(w, DecodedFrom(script))
  {
    if script != [] {
      var n := |script| - 1;
      var w := Unfold(START, script[..n]);
      RoutingConservation(script[..n]);
      StoppedStep(script, n);
      ReadingStep(w, script[n]);
      HappenBalances(w, DecodedFrom(script[..n]), script[n]);
    }
  }

  /** A frame is dropped for being one too many exactly when 32 are already waiting and nobody is waiting for it. */
  lemma DroppedOnlyWhenFull(script: seq<Happening>, m: DigMessage)
    ensures var w := Unfold(START, script);
            && (FateOf(w, m).DroppedFull? <==>
                w.listening && |w.queue| == 32 && !CorrelationOf(w.table, m).Answer?)
            && (FateOf(w, m).DroppedClosed? <==> !w.listening && !CorrelationOf(w.table, m).Answer?)
  {
    RoutingConservation(script);
  }

  // ---------------------------------------------------------------------------------------------
  // Undecodable frames cost nothing but themselves
  // ---------------------------------------------------------------------------------------------

  predicate Undecodable(h: Happening) {
    h.Arrived? && h.frame.Binary? && Decode(h.frame.bytes).None?
  }

  function WithoutUndecodable(script: seq<Happening>): seq<Happening> {
    if script == [] then [] else
    var n := |script| - 1;
    WithoutUndecodable(script[..n]) + if Undecodable(script[n]) then [] else [script[n]]
  }

  /** Erasing every undecodable frame from a run changes nothing at all about where it ends. */
  lemma {:induction false} UndecodableErased(w: World, script: seq<Happening>)
    ensures Unfold(w, WithoutUndecodable(script)) == Unfold(w, script)
  {
    if script != [] {
      var n := |script| - 1;
      UndecodableErased(w, script[..n]);
      if Undecodable(script[n]) {
        assert WithoutUndecodable(script) == WithoutUndecodable(script[..n]);
      } else {
        UnfoldAppend(w, WithoutUndecodable(script[..n]), script[n]);
      }
    }
  }
}
