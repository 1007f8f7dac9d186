/** The coalescing change channel: producers under a lock, one consumer. */
module ChangeBus {
  import opened Bytes
  import opened Ordering

  datatype Change = Change(nodes: seq<string>, pending: bool)

  // ---------- merging hints ----------

  // The elements of s that are not in seen, each once, in order.
  function Fresh(s: seq<string>, seen: set<string>): seq<string> {
    if s == [] then []
    else if s[0] in seen then Fresh(s[1..], seen)
    else [s[0]] + Fresh(s[1..], seen + {s[0]})
  }

  function Merge(pending: Change, latest: Change): Change {
    Change(Fresh(pending.nodes + latest.nodes, {}), pending.pending || latest.pending)
  }

  function IDs(s: seq<string>): set<string> { set x | x in s }

  lemma {:induction false} FreshIs(s: seq<string>, seen: set<string>)
    ensures Distinct(Fresh(s, seen)) && IDs(Fresh(s, seen)) == IDs(s) - seen
  {
    if s != [] {
      assert IDs(s) == {s[0]} + IDs(s[1..]);
      if s[0] in seen {
        FreshIs(s[1..], seen);
      } else {
        var rest := Fresh(s[1..], seen + {s[0]});
        FreshIs(s[1..], seen + {s[0]});
        assert s[0] !in IDs(rest);
        assert IDs([s[0]] + rest) == {s[0]} + IDs(rest);
        assert Distinct([s[0]] + rest);
      }
    }
  }

  // A merged hint names every node of both, each once, and asks for the
  // pending services if either did.
  lemma MergeIsUnion(pending: Change, latest: Change)
    ensures var m := Merge(pending, latest);
            IDs(m.nodes) == IDs(pending.nodes) + IDs(latest.nodes) && Distinct(m.nodes) && m.pending == (pending.pending || latest.pending)
  {
    FreshIs(pending.nodes + latest.nodes, {});
    assert IDs(pending.nodes + latest.nodes) == IDs(pending.nodes) + IDs(latest.nodes);
  }

  method MergeResourceChanges(pending: Change, latest: Change) returns (merged: Change)
    ensures merged == Merge(pending, latest)
  {
    var all := pending.nodes + latest.nodes;
    var nodes := Deduplicate(all);
    merged := Change(nodes, pending.pending || latest.pending);
  }

  method Deduplicate(all: seq<string>) returns (nodes: seq<string>)
    ensures nodes == Fresh(all, {})
  {
    nodes := [];
    var seen: set<string> := {};
    for i := 0 to |all|
      invariant nodes + Fresh(all[i..], seen) == Fresh(all, {})
    {
      assert all[i..][0] == all[i] && all[i..][1..] == all[i + 1..];
      if all[i] !in seen {
        assert nodes + ([all[i]] + Fresh(all[i + 1..], seen + {all[i]})) == nodes + [all[i]] + Fresh(all[i + 1..], seen + {all[i]});
        seen, nodes := seen + {all[i]}, nodes + [all[i]];
      }
    }
  }

  // The hint for one notification, unless it names no node.
  function Hint(ids: seq<string>, pending: bool): Option<Change> {
    var nodes := Fresh(ids, {""});
    if nodes == [] then None else Some(Change(nodes, pending))
  }

  // A notification that names a node gives a hint of exactly its nodes, each
  // once, with its request; one that names none gives no hint.
  lemma HintExactly(ids: seq<string>, pending: bool)
    ensures Hint(ids, pending).None? <==> forall id :: id in ids ==> id == ""
    ensures Hint(ids, pending).Some? ==>
              var hint := Hint(ids, pending).value;
              hint.pending == pending && Distinct(hint.nodes) && forall id :: id in hint.nodes <==> id in ids && id != ""
  {
    FreshIs(ids, {""});
    var nodes := Fresh(ids, {""});
    assert forall id :: id in nodes <==> id in ids && id != "" by {
      forall id ensures id in nodes <==> id in ids && id != "" {
        assert id in nodes <==> id in IDs(nodes);
        assert id in ids <==> id in IDs(ids);
      }
    }
    if nodes != [] {
      assert nodes[0] in nodes;
    }
  }

  method BuildHint(ids: seq<string>, pending: bool) returns (hint: Option<Change>)
    ensures hint == Hint(ids, pending)
  {
    var nodes: seq<string> := [];
    var seen: set<string> := {};
    assert {} + {""} == {""} && ids[0..] == ids;
    for i := 0 to |ids|
      invariant "" !in seen && nodes + Fresh(ids[i..], seen + {""}) == Fresh(ids, {""})
    {
      assert ids[i..][0] == ids[i] && ids[i..][1..] == ids[i + 1..];
      if ids[i] != "" && ids[i] !in seen {
        ghost var rest := Fresh(ids[i + 1..], seen + {""} + {ids[i]});
        assert seen + {ids[i]} + {""} == seen + {""} + {ids[i]};
        assert nodes + ([ids[i]] + rest) == nodes + [ids[i]] + rest;
        seen, nodes := seen + {ids[i]}, nodes + [ids[i]];
      }
    }
    assert nodes + [] == nodes;
    return if nodes == [] then None else Some(Change(nodes, pending));
  }

  // ---------- the channel under interleaving ----------

  // A channel that holds one hint; the producer that has the lock keeps a hint
  // in hand until it is written, and takes counts its reads of the channel.
  datatype State = State(
    queue: Option<Change>, hand: Option<Change>, takes: nat, consumed: seq<Change>,
    notified: set<string>, asked: bool)

  const START := State(None, None, 0, [], {}, false)

  datatype Step = Notify(ids: seq<string>, pending: bool) | Write | Take | Consume

  // Whether a step can happen: one producer at a time, a write needs an empty
  // channel, and a read a full one.
  predicate Enabled(s: State, step: Step) {
    match step
    case Notify(_, _) => s.hand.None?
    case Write => s.hand.Some? && s.queue.None?
    case Take => s.hand.Some? && s.queue.Some?
    case Consume => s.queue.Some?
  }

  function Next(s: State, step: Step): State
    requires Enabled(s, step)
  {
    match step
    case Notify(ids, pending) =>
      var hint := Hint(ids, pending);
      if hint.None? then s
      else s.(hand := hint, takes := 0, notified := s.notified + (IDs(ids) - {""}), asked := s.asked || pending)
    case Write => s.(queue := s.hand, hand := None)
    case Take => s.(hand := Some(Merge(s.queue.value, s.hand.value)), queue := None, takes := s.takes + 1)
    case Consume => s.(consumed := s.consumed + [s.queue.value], queue := None)
  }

  function Named(c: Option<Change>): set<string> { if c.None? then {} else IDs(c.value.nodes) }

  function Asks(c: Option<Change>): bool { c.Some? && c.value.pending }

  function AllNamed(changes: seq<Change>): set<string> {
    if changes == [] then {} else AllNamed(changes[..|changes| - 1]) + IDs(changes[|changes| - 1].nodes)
  }

  predicate AnyAsks(changes: seq<Change>) { exists i :: 0 <= i < |changes| && changes[i].pending }

  // No hint is lost: what has been consumed, what waits and what is in hand name
  // exactly the nodes notified; and the same for the request to look at pending
  // services. Hints have no duplicates. Once a producer has read the channel it
  // stays empty until it writes.
  ghost predicate Inv(s: State) {
    && s.notified == AllNamed(s.consumed) + Named(s.queue) + Named(s.hand)
    && s.asked == (AnyAsks(s.consumed) || Asks(s.queue) || Asks(s.hand))
    && (s.queue.Some? ==> Distinct(s.queue.value.nodes)) && (s.hand.Some? ==> Distinct(s.hand.value.nodes))
    && s.takes <= 1 && (s.takes == 1 && s.hand.Some? ==> s.queue.None?)
  }

  lemma AllNamedAppend(changes: seq<Change>, c: Change)
    ensures AllNamed(changes + [c]) == AllNamed(changes) + IDs(c.nodes)
    ensures AnyAsks(changes + [c]) <==> AnyAsks(changes) || c.pending
  {
    var more := changes + [c];
    assert more[..|changes|] == changes && more[|changes|] == c;
    if AnyAsks(changes) {
      var i :| 0 <= i < |changes| && changes[i].pending;
      assert more[i].pending;
    }
  }

  lemma HintNames(ids: seq<string>, pending: bool)
    ensures var hint := Hint(ids, pending);
            hint.Some? ==> Named(hint) == IDs(ids) - {""} && hint.value.pending == pending && Distinct(hint.value.nodes)
  {
    FreshIs(ids, {""});
  }

  lemma TakeKeepsInv(s: State, s': State)
    requires Inv(s) && Enabled(s, Take) && s' == Next(s, Take)
    ensures Inv(s')
  {
    MergeIsUnion(s.queue.value, s.hand.value);
    assert Named(s'.hand) == Named(s.queue) + Named(s.hand);
  }

  lemma ConsumeKeepsInv(s: State, s': State)
    requires Inv(s) && Enabled(s, Consume) && s' == Next(s, Consume)
    ensures Inv(s')
  {
    AllNamedAppend(s.consumed, s.queue.value);
  }

  lemma StepKeepsInv(s: State, step: Step)
    requires Inv(s) && Enabled(s, step)
    ensures Inv(Next(s, step))
  {
    match step
    case Notify(ids, pending) => HintNames(ids, pending);
    case Write =>
    case Take => TakeKeepsInv(s, Next(s, Take));
    case Consume => ConsumeKeepsInv(s, Next(s, Consume));
  }

  // What each step does, and when it can happen: a notification takes the lock
  // with its hint, a write moves the hint to the empty channel, a read merges the
  // waiting hint into it, and the consumer takes what waits.
  lemma StepsExactly(s: State, ids: seq<string>, pending: bool)
    ensures Enabled(s, Notify(ids, pending)) <==> s.hand.None?
    ensures Enabled(s, Write) <==> s.hand.Some? && s.queue.None?
    ensures Enabled(s, Take) <==> s.hand.Some? && s.queue.Some?
    ensures Enabled(s, Consume) <==> s.queue.Some?
    ensures s.hand.None? && (exists id :: id in ids && id != "") ==>
              var s' := Next(s, Notify(ids, pending));
              && s'.hand.Some? && s'.queue == s.queue && s'.consumed == s.consumed
              && s'.notified == s.notified + (set id | id in ids && id != "") && s'.asked == (s.asked || pending)
    ensures s.hand.None? && (forall id :: id in ids ==> id == "") ==> Next(s, Notify(ids, pending)) == s
    ensures s.queue.Some? ==> Next(s, Consume).consumed == s.consumed + [s.queue.value] && Next(s, Consume).queue.None?
    ensures s.hand.Some? && s.queue.None? ==> Next(s, Write).queue == s.hand && Next(s, Write).hand.None?
  {
    HintExactly(ids, pending);
    assert IDs(ids) - {""} == set id | id in ids && id != "";
  }

  ghost predicate IsRun(trace: seq<State>, steps: seq<Step>) {
    |trace| == |steps| + 1 && trace[0] == START && forall i: nat :: i < |steps| ==> StepAt(trace, steps, i)
  }

  ghost predicate StepAt(trace: seq<State>, steps: seq<Step>, i: nat)
    requires i < |steps| && |trace| == |steps| + 1
  {
    Enabled(trace[i], steps[i]) && trace[i + 1] == Next(trace[i], steps[i])
  }

  // Under every interleaving of producers and consumer, no hint is lost.
  lemma {:induction false} NoHintIsLost(trace: seq<State>, steps: seq<Step>, i: nat)
    requires IsRun(trace, steps) && i < |trace|
    ensures Inv(trace[i])
  {
    if i > 0 {
      NoHintIsLost(trace, steps, i - 1);
      assert StepAt(trace, steps, i - 1);
      StepKeepsInv(trace[i - 1], steps[i - 1]);
    }
  }

  // A producer's loop always has a step, and after one read of the channel its
  // next step can only be the write that ends it.
  lemma LoopEndsAfterOneRead(trace: seq<State>, steps: seq<Step>, i: nat)
    requires IsRun(trace, steps) && i < |trace| && trace[i].hand.Some?
    ensures Enabled(trace[i], Write) || Enabled(trace[i], Take)
    ensures trace[i].takes > 0 ==> trace[i].takes == 1 && Enabled(trace[i], Write) && !Enabled(trace[i], Take)
  {
    NoHintIsLost(trace, steps, i);
  }

  // A notification is with the consumer once the channel and the hand are empty.
  lemma EverythingArrives(trace: seq<State>, steps: seq<Step>, i: nat)
    requires IsRun(trace, steps) && i < |trace| && trace[i].hand.None? && trace[i].queue.None?
    ensures AllNamed(trace[i].consumed) == trace[i].notified && AnyAsks(trace[i].consumed) == trace[i].asked
  {
    NoHintIsLost(trace, steps, i);
  }
}
