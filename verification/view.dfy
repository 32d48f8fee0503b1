/** The projection `render` draws: the tasks passing both the filter-mode
    test and the search test, in list order. */
module View {
  import opened Seqs
  import opened Text
  import opened Store

  /** The filter-mode test: `active` admits pending tasks, `completed`
      admits completed ones, and any other mode admits everything. */
  predicate ModeAdmits(mode: string, t: Task) {
    if mode == "active" then !t.completed
    else if mode == "completed" then t.completed
    else true
  }

  /** The search test: the query occurs in the lower-cased title, or in the
      lower-cased location when there is one. */
  predicate SearchHits(query: string, t: Task) {
    Includes(Lower(t.title), query) || (t.location != [] && Includes(Lower(t.location), query))
  }

  function Shows(mode: string, query: string): Task -> bool {
    (t: Task) => ModeAdmits(mode, t) && SearchHits(query, t)
  }

  /** What the search box holds as a query: lower-cased, then trimmed. The
      query is the lower-cased input with its white-space padding removed. */
  function NormalizeQuery(input: string): (q: string)
    ensures |q| <= |input|
    ensures IsTrimmed(q)
    ensures forall c :: c in q ==> !('A' <= c <= 'Z')
    ensures q == [] <==> AllWhitespace(input)
    ensures exists a :: PaddedAt(Lower(input), q, a)
  {
    var lower := Lower(input);
    assert AllWhitespace(lower) <==> AllWhitespace(input) by {
      forall i | 0 <= i < |input| ensures IsWhitespace(lower[i]) <==> IsWhitespace(input[i]) { }
    }
    Trim(lower)
  }

  /** Lower-casing twice is lower-casing once. */
  lemma LowerIdempotent(s: string)
    ensures Lower(Lower(s)) == Lower(s)
  {
    var l := Lower(s);
    forall i | 0 <= i < |s| ensures Lower(l)[i] == l[i] {
      assert !('A' <= l[i] <= 'Z');
    }
  }

  /** The search ignores case: inputs that differ only in the case of ASCII
      letters give the same query, and lower-casing the input first changes
      nothing. */
  lemma QueryIgnoresCase(x: string, y: string)
    ensures Lower(x) == Lower(y) ==> NormalizeQuery(x) == NormalizeQuery(y)
    ensures NormalizeQuery(Lower(x)) == NormalizeQuery(x)
  {
    LowerIdempotent(x);
  }

  /** Typing ` MILK ` searches for `milk`. */
  lemma QueryExample()
    ensures NormalizeQuery(" MILK ") == "milk"
  {
    assert Lower(" MILK ") == " " + "milk" + " ";
    TrimPadding(" ", "milk", " ");
  }

  /** The visible list: an order-preserving subsequence of the tasks holding
      exactly those that pass both tests, where the search test is a
      substring match. */
  function VisibleTasks(tasks: seq<Task>, mode: string, query: string): (r: seq<Task>)
    ensures IsSubseq(r, tasks)
    ensures forall i :: 0 <= i < |r| ==>
      && ModeAdmits(mode, r[i])
      && (IsInfix(query, Lower(r[i].title)) || (r[i].location != [] && IsInfix(query, Lower(r[i].location))))
    ensures forall i :: 0 <= i < |tasks| ==>
      ModeAdmits(mode, tasks[i]) &&
      (IsInfix(query, Lower(tasks[i].title)) || (tasks[i].location != [] && IsInfix(query, Lower(tasks[i].location))))
      ==> tasks[i] in r
  {
    Filter(tasks, Shows(mode, query))
  }

  /** The view decides task by task: it splits over concatenation, and a
      single task shows iff it passes both tests. */
  lemma VisibleEntrywise(a: seq<Task>, b: seq<Task>, t: Task, mode: string, query: string)
    ensures VisibleTasks(a + b, mode, query) == VisibleTasks(a, mode, query) + VisibleTasks(b, mode, query)
    ensures VisibleTasks([t], mode, query) ==
      if ModeAdmits(mode, t) && SearchHits(query, t) then [t] else []
  {
    FilterConcat(a, b, Shows(mode, query));
  }

  /** An empty query matches every task, so under a mode that is neither
      `active` nor `completed` the whole list shows. */
  lemma EmptyQueryShowsAll(tasks: seq<Task>, mode: string)
    requires mode != "active" && mode != "completed"
    ensures VisibleTasks(tasks, mode, []) == tasks
  {
    forall i | 0 <= i < |tasks| ensures Shows(mode, [])(tasks[i]) {
      assert OccursAt([], Lower(tasks[i].title), 0);
    }
  }

  /** The `active` and `completed` views split the unfiltered view between
      them: for any query their sizes add up to the size under `all`. */
  lemma ModesPartition(tasks: seq<Task>, query: string)
    ensures |VisibleTasks(tasks, "active", query)| + |VisibleTasks(tasks, "completed", query)|
         == |VisibleTasks(tasks, "all", query)|
  {
    FilterSplitCount(tasks, Shows("all", query), Shows("active", query), Shows("completed", query));
  }
}
