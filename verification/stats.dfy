/** The counters `updateStats` shows: total, completed, pending and the
    completion percentage. They are recomputed from the whole list,
    independently of the filtered view. */
module Stats {
  import opened Seqs
  import opened Store

  datatype Counts = Counts(total: nat, completed: nat, pending: nat, percent: nat)

  predicate IsDone(t: Task) {
    t.completed
  }

  lemma DivBracket(n: nat, d: nat)
    requires d > 0
    ensures d * (n / d) <= n < d * (n / d + 1)
  {
    assert n == d * (n / d) + n % d;
  }

  /** For a positive `d`, `d * x <= d * y` iff `x <= y`. */
  lemma MulMonotone(d: nat, x: nat, y: nat)
    requires d > 0
    ensures d * x <= d * y <==> x <= y
  {
    if x <= y {
      assert d * y == d * x + d * (y - x);
    } else {
      assert d * x == d * y + d * (x - y);
    }
  }

  /** The bracket that pins down `p` as the rounded percentage. */
  lemma PercentBounds(c: nat, t: nat, p: nat)
    requires 0 < t && c <= t
    requires 2 * t * p <= 200 * c + t < 2 * t * (p + 1)
    ensures p <= 100
    ensures c == 0 ==> p == 0
    ensures c == t ==> p == 100
  {
    var d := 2 * t;
    var n := 200 * c + t;
    var low, high := d * p, d * (p + 1);
    assert low <= n < high;
    MulMonotone(d, 101, p);
    assert d * 101 > n;
    if c == 0 {
      MulMonotone(d, 1, p);
      assert d * 1 > n;
    }
    if c == t {
      MulMonotone(d, p + 1, 100);
      assert d * 100 <= n;
    }
  }

  /** `Math.round(completed / total * 100)`, or 0 for an empty list, in exact
      arithmetic: the integer nearest to 100 * c / t, halves rounding up. */
  function RoundPercent(c: nat, t: nat): (p: nat)
    requires c <= t
    ensures t == 0 ==> p == 0
    ensures t > 0 ==> 2 * t * p <= 200 * c + t < 2 * t * (p + 1)
    ensures p <= 100
    ensures c == 0 ==> p == 0
    ensures 0 < t && c == t ==> p == 100
  {
    if t == 0 then 0
    else
      var p := (200 * c + t) / (2 * t);
      DivBracket(200 * c + t, 2 * t);
      PercentBounds(c, t, p);
      p
  }

  /** `updateStats`. The completed count is the number of completed tasks:
      zero exactly when none is, the total exactly when all are. */
  function UpdateStats(tasks: seq<Task>): (s: Counts)
    ensures s.total == |tasks|
    ensures s.completed <= s.total && s.pending == s.total - s.completed
    ensures s.completed == 0 <==> forall i :: 0 <= i < |tasks| ==> !tasks[i].completed
    ensures s.completed == s.total <==> forall i :: 0 <= i < |tasks| ==> tasks[i].completed
    ensures s.percent == RoundPercent(s.completed, s.total)
  {
    var done := Filter(tasks, IsDone);
    assert done != [] ==> done[0] in tasks && done[0].completed;
    Counts(|tasks|, |done|, |tasks| - |done|, RoundPercent(|done|, |tasks|))
  }

  /** The celebration condition and the counters agree: the list is all done
      exactly when it is non-empty and the completed count equals the total. */
  lemma AllDoneIffCounts(tasks: seq<Task>)
    ensures AllDone(tasks) <==> UpdateStats(tasks).total > 0 && UpdateStats(tasks).completed == UpdateStats(tasks).total
  {
  }

  /** A percentage of 100 does not mean everything is done: the figure
      reaches 100 exactly when fewer than one task in 200 is still pending
      (so 199 of 200 already shows 100). */
  lemma HundredIff(c: nat, t: nat)
    requires c <= t
    ensures 0 < t ==> (RoundPercent(c, t) == 100 <==> 200 * (t - c) <= t)
  {
    if 0 < t {
      var p := RoundPercent(c, t);
      var d := 2 * t;
      var n := 200 * c + t;
      var low, high := d * p, d * (p + 1);
      assert low <= n < high;
      if 200 * (t - c) <= t {
        MulMonotone(d, p + 1, 100);
      }
      if p == 100 {
        assert low == 200 * t;
      }
    }
  }

  /** The completed count is decided task by task: it adds up over a split
      of the list, and a single task counts 1 when completed and 0 when not.
      Together these fix it as the number of completed tasks. */
  lemma CompletedEntrywise(a: seq<Task>, b: seq<Task>, t: Task)
    ensures UpdateStats(a + b).completed == UpdateStats(a).completed + UpdateStats(b).completed
    ensures UpdateStats([t]).completed == if t.completed then 1 else 0
  {
    FilterConcat(a, b, IsDone);
  }

  /** Four tasks with one of them completed show 1 completed, 3 pending and
      25%. */
  lemma QuarterDone(w: Task, x: Task, y: Task, z: Task)
    requires w.completed && !x.completed && !y.completed && !z.completed
    ensures UpdateStats([w] + [x] + [y] + [z]) == Counts(4, 1, 3, 25)
  {
    CompletedEntrywise([w], [x], w);
    CompletedEntrywise([w] + [x], [y], x);
    CompletedEntrywise([w] + [x] + [y], [z], y);
    CompletedEntrywise([], [], z);
    assert RoundPercent(1, 4) == 25;
  }

  /** Toggling moves the completed count by exactly one, in the direction of
      the flip, and leaves the total alone; with no matching id nothing moves. */
  lemma {:induction false} ToggleShiftsCompleted(tasks: seq<Task>, id: string)
    ensures UpdateStats(ToggleTask(tasks, id)).total == UpdateStats(tasks).total
    ensures FirstIndex(tasks, id).None? ==>
      UpdateStats(ToggleTask(tasks, id)).completed == UpdateStats(tasks).completed
    ensures FirstIndex(tasks, id).Some? ==>
      UpdateStats(ToggleTask(tasks, id)).completed ==
        if tasks[FirstIndex(tasks, id).value].completed
        then UpdateStats(tasks).completed - 1
        else UpdateStats(tasks).completed + 1
    decreases |tasks|
  {
    if tasks != [] {
      var after := ToggleTask(tasks, id);
      assert tasks == [tasks[0]] + tasks[1..];
      FilterConcat([tasks[0]], tasks[1..], IsDone);
      if tasks[0].id == id {
        assert after == [after[0]] + tasks[1..];
        FilterConcat([after[0]], tasks[1..], IsDone);
      } else {
        ToggleShiftsCompleted(tasks[1..], id);
        assert after == [tasks[0]] + ToggleTask(tasks[1..], id);
        FilterConcat([tasks[0]], ToggleTask(tasks[1..], id), IsDone);
      }
    }
  }
}
