/** The two export formats that are pure formatting: the JSON dump with the
    photo stripped (`exportJSON`) and the numbered plain-text list
    (`exportTXT`). Producing the downloadable file is I/O. */
module Export {
  import opened Seqs
  import opened Text
  import opened Json
  import opened Store

  // ---------------------------------------------------------------------
  // JSON export

  /** One exported record: the saved record without its `photo`. */
  function ExportRecord(t: Task): (v: Value)
    ensures v == JObj(Encode(t).props - {"photo"})
  {
    assert Fields(t) == Encode(t).props - {"photo"};
    JObj(Fields(t))
  }

  /** `exportJSON`: one record per task, same order, each the task's saved
      record with the photo dropped and every other field kept. */
  function ExportJson(tasks: seq<Task>): (r: seq<Value>)
    ensures |r| == |tasks|
    ensures forall i :: 0 <= i < |tasks| ==>
      && r[i].JObj?
      && "photo" !in r[i].props
      && r[i].props.Keys == TaskKeys - {"photo"}
      && forall k :: k in r[i].props ==> r[i].props[k] == Encode(tasks[i]).props[k]
  {
    seq(|tasks|, i requires 0 <= i < |tasks| => ExportRecord(tasks[i]))
  }

  /** The photo is the only thing the export forgets: two tasks export to
      the same record exactly when they agree on every other field. */
  lemma ExportForgetsOnlyPhoto(a: Task, b: Task)
    ensures ExportRecord(a) == ExportRecord(b) <==> a.(photo := None) == b.(photo := None)
  {
    FieldsInjective(a, b);
  }

  // ---------------------------------------------------------------------
  // Plain-text export

  const TxtTitle: string := "RIEL TODO LIST"
  const TxtRule: string := "================"
  const TxtHeader: string := TxtTitle + "\n" + TxtRule + "\n"

  function CheckMark(t: Task): char {
    if t.completed then 'X' else ' '
  }

  /** `t.category || 'Gen'`. */
  function CategoryLabel(t: Task): string {
    if t.category == [] then "Gen" else t.category
  }

  /** `${i + 1}. [`: the entry number and the opening of the check box. */
  function EntryHead(n: nat): string {
    NatToString(n) + ". ["
  }

  /** `if (t.time) content += \` (@ ${t.time})\``. */
  function TimeNote(t: Task): string {
    if t.time != [] then " (@ " + t.time + ")" else ""
  }

  /** `if (t.location) content += \` in ${t.location}\``. */
  function PlaceNote(t: Task): string {
    if t.location != [] then " in " + t.location else ""
  }

  /** Everything after the check mark: category, title and annotations. */
  function EntryTail(t: Task): string {
    "] [" + CategoryLabel(t) + "] " + t.title + TimeNote(t) + PlaceNote(t)
  }

  lemma EntryHasNoNewline(n: nat, t: Task)
    requires NoNewlines(t)
    ensures '\n' !in EntryHead(n) + [CheckMark(t)] + EntryTail(t)
  {
    assert '\n' !in NatToString(n);
    assert '\n' !in EntryHead(n);
    assert '\n' !in CategoryLabel(t);
    assert '\n' !in TimeNote(t);
    assert '\n' !in PlaceNote(t);
    var front := "] [" + CategoryLabel(t) + "] " + t.title;
    assert '\n' !in front;
    assert EntryTail(t) == front + TimeNote(t) + PlaceNote(t);
  }

  /** One line of the plain-text export. */
  function TxtLine(n: nat, t: Task): string {
    EntryHead(n) + [CheckMark(t)] + EntryTail(t) + "\n"
  }

  /** `s` ends with `x`. */
  predicate EndsWith(s: string, x: string) {
    |x| <= |s| && s[|s| - |x|..] == x
  }

  /** A concatenation starts with its first part and ends with its last. */
  lemma ConcatEnds(a: string, b: string)
    ensures a <= a + b
    ensures EndsWith(a + b, b)
  {
    assert (a + b)[..|a|] == a;
    assert (a + b)[|a|..] == b;
  }

  /** After the check mark come the category (`Gen` when there is none)
      and the title. */
  lemma EntryTailFront(t: Task)
    ensures "] [" + (if t.category == [] then "Gen" else t.category) + "] " + t.title <= EntryTail(t)
  {
    var front := "] [" + CategoryLabel(t) + "] " + t.title;
    assert EntryTail(t) == front + (TimeNote(t) + PlaceNote(t));
    ConcatEnds(front, TimeNote(t) + PlaceNote(t));
  }

  /** The annotations after the title: the time as ` (@ time)` when there
      is one, then the location as ` in location` when there is one. */
  lemma EntryTailEnd(t: Task)
    ensures t.time == [] && t.location == [] ==> EndsWith(EntryTail(t), "] " + t.title)
    ensures t.time != [] && t.location == [] ==> EndsWith(EntryTail(t), "] " + t.title + " (@ " + t.time + ")")
    ensures t.time == [] && t.location != [] ==> EndsWith(EntryTail(t), "] " + t.title + " in " + t.location)
    ensures t.time != [] && t.location != [] ==>
      EndsWith(EntryTail(t), "] " + t.title + " (@ " + t.time + ") in " + t.location)
  {
    var front := "] [" + CategoryLabel(t);
    var rest := "] " + t.title + TimeNote(t) + PlaceNote(t);
    assert EntryTail(t) == front + rest;
    ConcatEnds(front, rest);
    if t.time != [] && t.location != [] {
      assert rest == "] " + t.title + " (@ " + t.time + ") in " + t.location;
    } else if t.time != [] {
      assert rest == "] " + t.title + " (@ " + t.time + ")";
    } else if t.location != [] {
      assert rest == "] " + t.title + " in " + t.location;
    } else {
      assert rest == "] " + t.title;
    }
  }

  /** Prefixes survive appending. */
  lemma PrefixExtend(a: string, b: string, c: string)
    requires a <= b
    ensures a <= b + c
  {
    assert (b + c)[..|a|] == b[..|a|];
  }

  /** Wrapping a string that ends with `x` in a front part and a closing
      line break gives one that ends with `x` and the line break. */
  lemma EndsWithWrap(front: string, s: string, x: string)
    requires EndsWith(s, x)
    ensures EndsWith(front + s + "\n", x + "\n")
  {
    var w := front + s + "\n";
    assert w[|w| - |x + "\n"|..] == s[|s| - |x|..] + "\n";
  }

  /** The number, the check box and the closing line break of a line. */
  lemma TxtLineFrame(n: nat, t: Task)
    ensures NatToString(n) + ". [" <= TxtLine(n, t)
    ensures |NatToString(n)| + 4 <= |TxtLine(n, t)|
    ensures TxtLine(n, t)[|NatToString(n)| + 3] == 'X' <==> t.completed
    ensures TxtLine(n, t)[|TxtLine(n, t)| - 1] == '\n'
    ensures NoNewlines(t) ==> '\n' !in TxtLine(n, t)[..|TxtLine(n, t)| - 1]
  {
    var head := EntryHead(n);
    var line := TxtLine(n, t);
    assert line[..|head|] == head;
    assert line[|head|] == CheckMark(t);
    assert line[..|line| - 1] == head + [CheckMark(t)] + EntryTail(t);
    if NoNewlines(t) {
      EntryHasNoNewline(n, t);
    }
  }

  /** The check box is followed by the category and the title. */
  lemma TxtLineFields(n: nat, t: Task)
    ensures |NatToString(n)| + 4 <= |TxtLine(n, t)|
    ensures "] [" + (if t.category == [] then "Gen" else t.category) + "] " + t.title
      <= TxtLine(n, t)[|NatToString(n)| + 4..]
  {
    var boxed := EntryHead(n) + [CheckMark(t)];
    var tail := EntryTail(t);
    assert TxtLine(n, t) == boxed + (tail + "\n");
    assert |boxed| == |NatToString(n)| + 4;
    ConcatEnds(boxed, tail + "\n");
    EntryTailFront(t);
    PrefixExtend("] [" + (if t.category == [] then "Gen" else t.category) + "] " + t.title, tail, "\n");
  }

  /** A line ends the way its tail does, followed by the line break. */
  lemma TxtLineEndsAsTail(n: nat, t: Task, x: string)
    requires EndsWith(EntryTail(t), x)
    ensures EndsWith(TxtLine(n, t), x + "\n")
  {
    EndsWithWrap(EntryHead(n) + [CheckMark(t)], EntryTail(t), x);
  }

  /** The title closes the line, followed by the annotations present. */
  lemma TxtLineEnd(n: nat, t: Task)
    ensures t.time == [] && t.location == [] ==> EndsWith(TxtLine(n, t), "] " + t.title + "\n")
    ensures t.time != [] && t.location == [] ==> EndsWith(TxtLine(n, t), "] " + t.title + " (@ " + t.time + ")" + "\n")
    ensures t.time == [] && t.location != [] ==> EndsWith(TxtLine(n, t), "] " + t.title + " in " + t.location + "\n")
    ensures t.time != [] && t.location != [] ==>
      EndsWith(TxtLine(n, t), "] " + t.title + " (@ " + t.time + ") in " + t.location + "\n")
  {
    EntryTailEnd(t);
    if t.time == [] && t.location == [] {
      TxtLineEndsAsTail(n, t, "] " + t.title);
    } else if t.time != [] && t.location == [] {
      TxtLineEndsAsTail(n, t, "] " + t.title + " (@ " + t.time + ")");
    } else if t.time == [] {
      TxtLineEndsAsTail(n, t, "] " + t.title + " in " + t.location);
    } else {
      TxtLineEndsAsTail(n, t, "] " + t.title + " (@ " + t.time + ") in " + t.location);
    }
  }

  /** The shape of a text line: the entry number, a dot and an opening
      bracket; an `X` in the box exactly when the task is done; the category
      (`Gen` when there is none) and the title; then the time and location
      annotations, each present exactly when its field is non-empty; and a
      closing line break, the only one the line holds when the fields it
      shows have none. */
  lemma TxtLineShape(n: nat, t: Task)
    ensures NatToString(n) + ". [" <= TxtLine(n, t)
    ensures |NatToString(n)| + 4 <= |TxtLine(n, t)|
    ensures TxtLine(n, t)[|NatToString(n)| + 3] == 'X' <==> t.completed
    ensures "] [" + (if t.category == [] then "Gen" else t.category) + "] " + t.title
      <= TxtLine(n, t)[|NatToString(n)| + 4..]
    ensures t.time == [] && t.location == [] ==> EndsWith(TxtLine(n, t), "] " + t.title + "\n")
    ensures t.time != [] && t.location == [] ==> EndsWith(TxtLine(n, t), "] " + t.title + " (@ " + t.time + ")" + "\n")
    ensures t.time == [] && t.location != [] ==> EndsWith(TxtLine(n, t), "] " + t.title + " in " + t.location + "\n")
    ensures t.time != [] && t.location != [] ==>
      EndsWith(TxtLine(n, t), "] " + t.title + " (@ " + t.time + ") in " + t.location + "\n")
    ensures TxtLine(n, t)[|TxtLine(n, t)| - 1] == '\n'
    ensures NoNewlines(t) ==> '\n' !in TxtLine(n, t)[..|TxtLine(n, t)| - 1]
  {
    TxtLineFrame(n, t);
    TxtLineFields(n, t);
    TxtLineEnd(n, t);
  }

  /** The lines for `tasks`, numbered from `n`. */
  function TxtBody(tasks: seq<Task>, n: nat): string
    decreases |tasks|
  {
    if tasks == [] then "" else TxtLine(n, tasks[0]) + TxtBody(tasks[1..], n + 1)
  }

  /** `f` applied to each element with its number, counting on from `n`. */
  function Numbered<T>(f: (nat, T) -> string, xs: seq<T>, n: nat): seq<string>
    decreases |xs|
  {
    if xs == [] then [] else [f(n, xs[0])] + Numbered(f, xs[1..], n + 1)
  }

  /** Entry `i` of a numbered list is element `i` with number `n + i`. */
  lemma {:induction false} NumberedIndex<T>(f: (nat, T) -> string, xs: seq<T>, n: nat)
    ensures |Numbered(f, xs, n)| == |xs|
    ensures forall i :: 0 <= i < |xs| ==> Numbered(f, xs, n)[i] == f(n + i, xs[i])
    decreases |xs|
  {
    if xs != [] {
      NumberedIndex(f, xs[1..], n + 1);
      var all, rest := Numbered(f, xs, n), Numbered(f, xs[1..], n + 1);
      forall i | 1 <= i < |xs| ensures all[i] == f(n + i, xs[i]) {
        assert all[i] == rest[i - 1];
        assert xs[1..][i - 1] == xs[i];
        assert n + 1 + (i - 1) == n + i;
      }
    }
  }

  /** Numbering a split list numbers the second part on from where the
      first stops. */
  lemma {:induction false} NumberedConcat<T>(f: (nat, T) -> string, a: seq<T>, b: seq<T>, n: nat)
    ensures Numbered(f, a + b, n) == Numbered(f, a, n) + Numbered(f, b, n + |a|)
    decreases |a|
  {
    if a == [] {
      assert a + b == b;
    } else {
      assert (a + b)[0] == a[0] && (a + b)[1..] == a[1..] + b;
      NumberedConcat(f, a[1..], b, n + 1);
      var h, x, y := [f(n, a[0])], Numbered(f, a[1..], n + 1), Numbered(f, b, n + |a|);
      assert h + (x + y) == (h + x) + y;
    }
  }

  /** The text line of each task, numbered on from `n`, in list order. */
  function Lines(tasks: seq<Task>, n: nat): seq<string> {
    Numbered(TxtLine, tasks, n)
  }

  /** Entry `i` of the line list is the line of task `i`, numbered `n + i`. */
  lemma LinesIndex(tasks: seq<Task>, n: nat)
    ensures |Lines(tasks, n)| == |tasks|
    ensures forall i :: 0 <= i < |tasks| ==> Lines(tasks, n)[i] == TxtLine(n + i, tasks[i])
  {
    NumberedIndex(TxtLine, tasks, n);
  }

  /** The strings of `lines` one after another. */
  function Join(lines: seq<string>): string
    decreases |lines|
  {
    if lines == [] then "" else lines[0] + Join(lines[1..])
  }

  /** The body is the task lines, numbered on from `n`, one after another. */
  lemma {:induction false} BodyIsJoin(tasks: seq<Task>, n: nat)
    ensures TxtBody(tasks, n) == Join(Lines(tasks, n))
    decreases |tasks|
  {
    if tasks != [] {
      BodyIsJoin(tasks[1..], n + 1);
      var all := Lines(tasks, n);
      assert all[0] == TxtLine(n, tasks[0]);
      assert all[1..] == Lines(tasks[1..], n + 1);
    }
  }

  /** `exportTXT`: the header, then the text line of task `i` numbered
      `i + 1`, for each task in list order. */
  function ExportTxt(tasks: seq<Task>): (text: string)
    ensures TxtHeader <= text
    ensures text == TxtHeader + Join(Lines(tasks, 1))
  {
    BodyIsJoin(tasks, 1);
    TxtHeader + TxtBody(tasks, 1)
  }

  lemma {:induction false} JoinConcat(x: seq<string>, y: seq<string>)
    ensures Join(x + y) == Join(x) + Join(y)
    decreases |x|
  {
    if x == [] {
      assert x + y == y;
    } else {
      assert (x + y)[0] == x[0] && (x + y)[1..] == x[1..] + y;
      JoinConcat(x[1..], y);
      var h, j, k := x[0], Join(x[1..]), Join(y);
      assert h + (j + k) == (h + j) + k;
    }
  }

  /** The line list of a split list is the two line lists one after the
      other, the second numbered on from where the first stops. */
  lemma LinesConcat(a: seq<Task>, b: seq<Task>, n: nat)
    ensures Lines(a + b, n) == Lines(a, n) + Lines(b, n + |a|)
  {
    NumberedConcat(TxtLine, a, b, n);
  }

  /** Numbering runs on across a split of the list. */
  lemma TxtBodyConcat(a: seq<Task>, b: seq<Task>, n: nat)
    ensures TxtBody(a + b, n) == TxtBody(a, n) + TxtBody(b, n + |a|)
  {
    BodyIsJoin(a + b, n);
    BodyIsJoin(a, n);
    BodyIsJoin(b, n + |a|);
    LinesConcat(a, b, n);
    JoinConcat(Lines(a, n), Lines(b, n + |a|));
  }

  /** None of the fields a text line shows holds a line break (form inputs
      cannot produce one). */
  predicate NoNewlines(t: Task) {
    '\n' !in t.title && '\n' !in t.category && '\n' !in t.time && '\n' !in t.location
  }

  function IsChar(c: char): char -> bool {
    (x: char) => x == c
  }

  /** The number of occurrences of `c` in `s`. */
  function CountChar(s: string, c: char): nat {
    |Filter(s, IsChar(c))|
  }

  lemma CountCharConcat(a: string, b: string, c: char)
    ensures CountChar(a + b, c) == CountChar(a, c) + CountChar(b, c)
  {
    FilterConcat(a, b, IsChar(c));
  }

  lemma CountCharAbsent(s: string, c: char)
    requires c !in s
    ensures CountChar(s, c) == 0
  {
  }

  /** With newline-free fields the text has exactly one line per task after
      the two header lines. */
  lemma {:induction false} TxtLineCount(tasks: seq<Task>)
    requires forall i :: 0 <= i < |tasks| ==> NoNewlines(tasks[i])
    ensures CountChar(ExportTxt(tasks), '\n') == |tasks| + 2
  {
    BodyLineCount(tasks, 1);
    CountCharConcat(TxtHeader, TxtBody(tasks, 1), '\n');
    HeaderLineCount();
  }

  lemma HeaderLineCount()
    ensures CountChar(TxtHeader, '\n') == 2
  {
    var t, r := TxtTitle, TxtRule;
    assert '\n' !in t && '\n' !in r;
    CountCharConcat(t + "\n" + r, "\n", '\n');
    CountCharConcat(t + "\n", r, '\n');
    CountCharConcat(t, "\n", '\n');
    CountCharAbsent(t, '\n');
    CountCharAbsent(r, '\n');
  }

  lemma {:induction false} BodyLineCount(tasks: seq<Task>, n: nat)
    requires forall i :: 0 <= i < |tasks| ==> NoNewlines(tasks[i])
    ensures CountChar(TxtBody(tasks, n), '\n') == |tasks|
    decreases |tasks|
  {
    if tasks != [] {
      var line := TxtLine(n, tasks[0]);
      TxtLineShape(n, tasks[0]);
      BodyLineCount(tasks[1..], n + 1);
      CountCharConcat(line, TxtBody(tasks[1..], n + 1), '\n');
      assert line == line[..|line| - 1] + "\n";
      CountCharConcat(line[..|line| - 1], "\n", '\n');
      CountCharAbsent(line[..|line| - 1], '\n');
    }
  }
}
