/**
 Several withSavepoint calls at once on one connection (packages/db/src/client.ts): their
 statements are queued one after another, in whatever order the callers issue them.
 */
module InterleavedSavepoints {
  import opened Options
  import opened Transactions

  /** SAVEPOINT, a statement of somebody's, or RELEASE or ROLLBACK TO at the end of a call. */
  datatype Event<!D> = Sets(name: string) | Works(effect: Effect<D>) | Closes(name: string, ok: bool)

  function Do<D>(s: Session<D>, e: Event<D>): Answer<D> {
    match e
    case Sets(name) => SetSavepoint(s, name, true)
    case Works(effect) => Execute(s, effect, true)
    case Closes(name, ok) => if ok then ReleaseSavepoint(s, name, true) else RollbackTo(s, name)
  }

  /** No statement fails but for what the connection says of its savepoints. */
  predicate AllSucceed<D>(s: Session<D>, events: seq<Event<D>>)
    decreases |events|
  {
    events == [] || (Do(s, events[0]).ok && AllSucceed(Do(s, events[0]).session, events[1..]))
  }

  function Without(open: seq<string>, name: string): seq<string> {
    if open == [] then []
    else
      var last := |open| - 1;
      if open[last] == name then open[..last] else Without(open[..last], name) + [open[last]]
  }

  /**
   What such calls issue: each savepoint under a name never used before, closed once, and all of
   them closed at the end.  `open` are the ones set and not closed, oldest first.
   */
  predicate Calls<D>(open: seq<string>, used: set<string>, events: seq<Event<D>>)
    decreases |events|
  {
    if events == [] then open == []
    else
      match events[0]
      case Sets(name) => name !in used && Calls(open + [name], used + {name}, events[1..])
      case Works(_) => Calls(open, used, events[1..])
      case Closes(name, _) => name in open && Calls(Without(open, name), used, events[1..])
  }

  /** Each savepoint is closed before the ones set before it. */
  predicate Nested<D>(open: seq<string>, events: seq<Event<D>>)
    decreases |events|
  {
    if events == [] then true
    else
      match events[0]
      case Sets(name) => Nested(open + [name], events[1..])
      case Works(_) => Nested(open, events[1..])
      case Closes(name, _) => open != [] && open[|open| - 1] == name && Nested(open[..|open| - 1], events[1..])
  }

  // ---------- What the connection holds ----------

  predicate OnStack<D>(s: Session<D>, name: string) {
    exists i :: 0 <= i < |s.savepoints| && s.savepoints[i].name == name
  }

  /** The open savepoints are on the stack in their order, among ones that were rolled back to. */
  ghost predicate Stacked<D>(sps: seq<Snapshot<D>>, open: seq<string>, used: set<string>) {
    && (forall i | 0 <= i < |sps| :: sps[i].name in used)
    && (forall i, j | 0 <= i < j < |sps| :: sps[i].name != sps[j].name)
    && (forall a | 0 <= a < |open| :: Latest(sps, open[a]).Some?)
    && (forall a, b | 0 <= a < b < |open| :: Latest(sps, open[a]).value < Latest(sps, open[b]).value)
  }

  lemma {:induction false} LatestBelow<D>(sps: seq<Snapshot<D>>, name: string, n: nat)
    requires Latest(sps, name).Some? && Latest(sps, name).value < n <= |sps|
    ensures Latest(sps[..n], name) == Latest(sps, name)
  {
    var i, found := Latest(sps, name).value, Latest(sps[..n], name);
    assert sps[..n][i].name == name;
    assert found.Some?;
    assert sps[..n][found.value] == sps[found.value];
  }

  lemma LatestUnderNew<D>(sps: seq<Snapshot<D>>, top: Snapshot<D>, name: string)
    ensures Latest(sps + [top], name) == if top.name == name then Some(|sps|) else Latest(sps, name)
  {
    assert (sps + [top])[..|sps|] == sps;
  }

  lemma SettingStacks<D>(sps: seq<Snapshot<D>>, top: Snapshot<D>, open: seq<string>, used: set<string>)
    requires Stacked(sps, open, used) && top.name !in used
    ensures Stacked(sps + [top], open + [top.name], used + {top.name})
  {
    forall a | 0 <= a < |open|
      ensures Latest(sps + [top], open[a]) == Latest(sps, open[a])
    {
      LatestUnderNew(sps, top, open[a]);
    }
    LatestUnderNew(sps, top, top.name);
  }

  /** Cut at the last open savepoint, or just above it, the stack still holds the other open ones. */
  lemma CuttingStacks<D>(sps: seq<Snapshot<D>>, open: seq<string>, used: set<string>, n: nat)
    requires Stacked(sps, open, used) && open != [] && n <= |sps|
    requires Latest(sps, open[|open| - 1]).value <= n
    ensures Stacked(sps[..n], open[..|open| - 1], used)
  {
    var last := |open| - 1;
    forall a | 0 <= a < last
      ensures Latest(sps[..n], open[a]) == Latest(sps, open[a])
    {
      assert Latest(sps, open[a]).value < Latest(sps, open[last]).value;
      LatestBelow(sps, open[a], n);
    }
  }

  /** A close finds its savepoint and keeps what is below it, and itself if it was rolled back to. */
  lemma ClosingCuts<D>(s: Session<D>, name: string, ok: bool)
    requires s.status.Open? && Latest(s.savepoints, name).Some?
    ensures var a, i := Do(s, Closes(name, ok)), Latest(s.savepoints, name).value;
            a.ok && a.session.status.Open? && a.session.savepoints == s.savepoints[..if ok then i else i + 1]
  {
    hide Latest;
  }

  lemma ClosingTheLastStacks<D>(s: Session<D>, open: seq<string>, used: set<string>, ok: bool)
    requires s.status.Open? && Stacked(s.savepoints, open, used) && open != []
    ensures var a := Do(s, Closes(open[|open| - 1], ok));
            a.ok && a.session.status.Open? && Stacked(a.session.savepoints, open[..|open| - 1], used)
  {
    var name := open[|open| - 1];
    var i := Latest(s.savepoints, name).value;
    hide Stacked, Do, Latest;
    ClosingCuts(s, name, ok);
    CuttingStacks(s.savepoints, open, used, if ok then i else i + 1);
  }

  /** Closing an earlier one drops every savepoint set after it. */
  lemma ClosingAnEarlierDrops<D>(s: Session<D>, open: seq<string>, used: set<string>, name: string, ok: bool)
    requires s.status.Open? && Stacked(s.savepoints, open, used)
    requires open != [] && name in open && name != open[|open| - 1]
    ensures var a := Do(s, Closes(name, ok));
            a.ok && a.session.status.Open? && !OnStack(a.session, open[|open| - 1])
  {
    var top := open[|open| - 1];
    var k :| 0 <= k < |open| && open[k] == name;
    var i, j := Latest(s.savepoints, name).value, Latest(s.savepoints, top).value;
    assert i < j && s.savepoints[j].name == top;
  }

  lemma {:induction false} StillOpen(open: seq<string>, name: string, closed: string)
    requires name in open && name != closed
    ensures name in Without(open, closed)
  {
    var last := |open| - 1;
    if open[last] != closed && name != open[last] {
      assert name in open[..last];
      StillOpen(open[..last], name, closed);
    } else if open[last] == closed {
      assert name in open[..last];
    }
  }

  /** A savepoint that was dropped while open fails its own close, sooner or later. */
  lemma {:induction false} DroppedFails<D>(s: Session<D>, open: seq<string>, used: set<string>,
                                           events: seq<Event<D>>, name: string)
    requires Calls(open, used, events) && name in open && name in used && !OnStack(s, name)
    ensures !AllSucceed(s, events)
    decreases |events|
  {
    var e := events[0];
    if e == Closes(name, true) || e == Closes(name, false) {
      assert Latest(s.savepoints, name).None?;
    } else if Do(s, e).ok {
      var s' := Do(s, e).session;
      assert !OnStack(s', name);
      match e
      case Sets(set_) => DroppedFails(s', open + [set_], used + {set_}, events[1..], name);
      case Works(_) => DroppedFails(s', open, used, events[1..], name);
      case Closes(closed, _) =>
        StillOpen(open, name, closed);
        DroppedFails(s', Without(open, closed), used, events[1..], name);
    }
  }

  lemma {:induction false} SucceedFrom<D>(s: Session<D>, open: seq<string>, used: set<string>,
                                          events: seq<Event<D>>)
    requires s.status.Open? && Stacked(s.savepoints, open, used) && Calls(open, used, events)
    requires forall name | name in open :: name in used
    ensures AllSucceed(s, events) <==> Nested(open, events)
    decreases |events|
  {
    if events != [] {
      var e, s' := events[0], Do(s, events[0]).session;
      match e
      case Sets(name) =>
        SettingStacks(s.savepoints, Snapshot(name, s.work), open, used);
        SucceedFrom(s', open + [name], used + {name}, events[1..]);
      case Works(_) =>
        SucceedFrom(s', open, used, events[1..]);
      case Closes(name, ok) =>
        var last := |open| - 1;
        if name == open[last] {
          ClosingTheLastStacks(s, open, used, ok);
          SucceedFrom(s', open[..last], used, events[1..]);
        } else {
          ClosingAnEarlierDrops(s, open, used, name, ok);
          StillOpen(open, open[last], name);
          DroppedFails(s', Without(open, name), used, events[1..], open[last]);
        }
    }
  }

  /**
   In a transaction whose statements otherwise succeed, every interleaving of savepoint calls goes
   through if and only if each is closed before the ones set before it; and then it is a nesting
   of them.  Otherwise some call finds its own savepoint gone.
   */
  lemma InterleavedSucceedExactly<D>(s: Session<D>, events: seq<Event<D>>)
    requires s.status.Open? && s.savepoints == [] && Calls([], {}, events)
    ensures AllSucceed(s, events) <==> Nested([], events)
  {
    SucceedFrom(s, [], {}, events);
  }
}
