/** Workers sharing a list of record tasks: any interleaving of their visits, and the counters
    they add to when a task ends (src/read/chain.rs). */
module Schedules {
  import opened Bytes

  /** A task's visits still to come, and the count it adds once they are done. */
  datatype Task<V> = Task(left: seq<V>, tally: Option<nat>)

  datatype Pool<V> = Pool(tasks: seq<Task<V>>, visited: seq<V>, eventsIn: nat)

  datatype Move = Visit(task: nat) | Finish(task: nat)

  predicate Enabled<V>(p: Pool<V>, m: Move)
  {
    && m.task < |p.tasks|
    && p.tasks[m.task].tally.Some?
    && match m
       case Visit(k) => p.tasks[k].left != []
       case Finish(k) => p.tasks[k].left == []
  }

  /** One visit by one worker, or the atomic add that ends its task. */
  function Apply<V>(p: Pool<V>, m: Move): Pool<V>
    requires Enabled(p, m)
  {
    var t := p.tasks[m.task];
    match m
    case Visit(k) => Pool(p.tasks[k := t.(left := t.left[1..])], p.visited + [t.left[0]], p.eventsIn)
    case Finish(k) => Pool(p.tasks[k := t.(tally := None)], p.visited, p.eventsIn + t.tally.value)
  }

  ghost predicate Run<V>(moves: seq<Move>, from: Pool<V>, to: Pool<V>)
    decreases moves
  {
    if moves == [] then from == to
    else Enabled(from, moves[0]) && Run(moves[1..], Apply(from, moves[0]), to)
  }

  function Initial<V>(parts: seq<seq<V>>, tallies: seq<nat>): Pool<V>
    requires |parts| == |tallies|
  {
    Pool(seq(|parts|, k requires 0 <= k < |parts| => Task(parts[k], Some(tallies[k]))), [], 0)
  }

  predicate Finished<V>(p: Pool<V>)
  {
    forall k :: 0 <= k < |p.tasks| ==> p.tasks[k].tally.None? && p.tasks[k].left == []
  }

  function Left<V>(tasks: seq<Task<V>>): seq<seq<V>>
  {
    seq(|tasks|, k requires 0 <= k < |tasks| => tasks[k].left)
  }

  function Tallies<V>(tasks: seq<Task<V>>): seq<nat>
  {
    seq(|tasks|, k requires 0 <= k < |tasks| => if tasks[k].tally.Some? then tasks[k].tally.value else 0)
  }

  lemma {:induction false} FlattenUpdate<V>(ss: seq<seq<V>>, k: nat)
    requires k < |ss| && ss[k] != []
    ensures multiset(Flatten(ss)) == multiset(Flatten(ss[k := ss[k][1..]])) + multiset{ss[k][0]}
  {
    var after := ss[k := ss[k][1..]];
    if k == 0 {
      assert ss[0] == [ss[0][0]] + ss[0][1..];
      assert after[1..] == ss[1..];
    } else {
      FlattenUpdate(ss[1..], k - 1);
      assert after[1..] == ss[1..][k - 1 := ss[k][1..]];
    }
  }

  lemma {:induction false} SumUpdate(xs: seq<nat>, k: nat)
    requires k < |xs|
    ensures Sum(xs) == Sum(xs[k := 0]) + xs[k]
  {
    if k == 0 {
      assert xs[0 := 0][1..] == xs[1..];
    } else {
      SumUpdate(xs[1..], k - 1);
      assert xs[k := 0][1..] == xs[1..][k - 1 := 0];
    }
  }

  /** Nothing is lost or doubled by one move. */
  lemma MoveConserves<V>(p: Pool<V>, m: Move)
    requires Enabled(p, m)
    ensures
      var q := Apply(p, m);
      && multiset(p.visited) + multiset(Flatten(Left(p.tasks))) == multiset(q.visited) + multiset(Flatten(Left(q.tasks)))
      && p.eventsIn + Sum(Tallies(p.tasks)) == q.eventsIn + Sum(Tallies(q.tasks))
  {
    var q := Apply(p, m);
    var k := m.task;
    var t := p.tasks[k];
    match m {
      case Visit(_) =>
        FlattenUpdate(Left(p.tasks), k);
        assert Left(q.tasks) == Left(p.tasks)[k := t.left[1..]];
        assert Tallies(q.tasks) == Tallies(p.tasks);
      case Finish(_) =>
        SumUpdate(Tallies(p.tasks), k);
        assert Tallies(q.tasks) == Tallies(p.tasks)[k := 0];
        assert Left(q.tasks) == Left(p.tasks);
    }
  }

  lemma {:induction false} RunConserves<V>(moves: seq<Move>, from: Pool<V>, to: Pool<V>)
    requires Run(moves, from, to)
    ensures multiset(from.visited) + multiset(Flatten(Left(from.tasks)))
      == multiset(to.visited) + multiset(Flatten(Left(to.tasks)))
    ensures from.eventsIn + Sum(Tallies(from.tasks)) == to.eventsIn + Sum(Tallies(to.tasks))
    decreases moves
  {
    if moves != [] {
      MoveConserves(from, moves[0]);
      RunConserves(moves[1..], Apply(from, moves[0]), to);
    }
  }

  lemma {:induction false} AllEmpty<V>(ss: seq<seq<V>>, xs: seq<nat>)
    requires |ss| == |xs| && forall k :: 0 <= k < |ss| ==> ss[k] == [] && xs[k] == 0
    ensures Flatten(ss) == [] && Sum(xs) == 0
  {
    if ss != [] {
      AllEmpty(ss[1..], xs[1..]);
    }
  }

  /** However the workers interleave, a finished scan has made the same visits and counted the
      same events. */
  lemma AnyInterleaving<V>(parts: seq<seq<V>>, tallies: seq<nat>, moves: seq<Move>, end: Pool<V>)
    requires |parts| == |tallies|
    requires Run(moves, Initial(parts, tallies), end) && Finished(end)
    ensures multiset(end.visited) == multiset(Flatten(parts))
    ensures end.eventsIn == Sum(tallies)
  {
    hide Run, Flatten, Sum;
    var start := Initial(parts, tallies);
    RunConserves(moves, start, end);
    assert Left(start.tasks) == parts && Tallies(start.tasks) == tallies;
    AllEmpty(Left(end.tasks), Tallies(end.tasks));
    assert start.visited == [] && start.eventsIn == 0;
    assert multiset(end.visited) + multiset(Flatten(Left(end.tasks))) == multiset(end.visited);
  }

  /** A scan not yet finished can always move on: no worker waits for another. */
  lemma NeverStuck<V>(p: Pool<V>)
    requires forall k :: 0 <= k < |p.tasks| && p.tasks[k].tally.None? ==> p.tasks[k].left == []
    ensures Finished(p) <==> forall m :: !Enabled(p, m)
  {
    if !Finished(p) {
      var k :| 0 <= k < |p.tasks| && !(p.tasks[k].tally.None? && p.tasks[k].left == []);
      assert Enabled(p, if p.tasks[k].left == [] then Finish(k) else Visit(k));
    }
  }
}
