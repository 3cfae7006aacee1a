/** output.h: what a log line looks like once wrapped, and how to undo the wrapping. */
module Wrapping {
  const ESC: char := '\U{1B}'
  const CARAT: string := [ESC] + "[1;32m>" + [ESC] + "[0m "
  const INDENT: string := "  "

  /** One row of output: prompt, mark and body, ended by std::endl. */
  datatype Row = Row(prompt: string, mark: string, body: string)

  function FirstLine(text: string): string {
    if text == [] || text[0] == '\n' then [] else [text[0]] + FirstLine(text[1..])
  }

  /** The text split at its newlines; never empty. */
  function Lines(text: string): seq<string> {
    var l := FirstLine(text);
    FirstLineFits(text);
    if |l| == |text| then [text] else [l] + Lines(text[|l| + 1..])
  }

  lemma {:induction false} FirstLineFits(text: string)
    ensures FirstLine(text) <= text && '\n' !in FirstLine(text)
    ensures |FirstLine(text)| < |text| ==> text[|FirstLine(text)|] == '\n'
  {
    if text != [] && text[0] != '\n' { FirstLineFits(text[1..]); }
  }

  /** Undoes the wrapping: a row marked with the carat starts a line, any other continues the line before it. */
  function Unwrap(rows: seq<Row>): seq<string> {
    if rows == [] then []
    else
      var r, before := rows[|rows| - 1], Unwrap(rows[..|rows| - 1]);
      if r.mark == CARAT || before == [] then before + [r.body]
      else before[..|before| - 1] + [before[|before| - 1] + r.body]
  }

  /** A line of this length fills its rows of n completely. */
  predicate Fills(length: nat, n: nat)
    requires n > 0
  {
    if length < n then length == 0 else Fills(length - n, n)
  }

  ghost predicate Multiple(length: nat, n: nat) {
    exists q: nat :: length == q * n
  }

  lemma {:induction false} FillsIffMultiple(length: nat, n: nat)
    requires n > 0
    ensures Fills(length, n) <==> Multiple(length, n)
  {
    if length < n {
      if length == 0 { assert length == 0 * n; }
      if q: nat :| length == q * n { NoMultipleBelow(q, n); }
    } else {
      FillsIffMultiple(length - n, n);
      if q: nat :| length - n == q * n { assert length == (q + 1) * n; }
      if q: nat :| length == q * n {
        if q == 0 { assert false; }
        assert length - n == (q - 1) * n;
      }
    }
  }

  lemma NoMultipleBelow(q: nat, n: nat)
    requires n > 0
    ensures q > 0 ==> q * n >= n
  {
  }

  /** The lines that get printed: up to the first empty line, or through the first one whose length is a positive
      multiple of the row length. */
  function Kept(lines: seq<string>, n: nat): seq<string>
    requires n > 0
  {
    if lines == [] || lines[0] == [] then []
    else if Fills(|lines[0]|, n) then [lines[0]]
    else [lines[0]] + Kept(lines[1..], n)
  }

  /** What a buffer that holds s and then a NUL shows as a C string. */
  function CString(s: string): (c: string)
    ensures |c| <= |s| && (|c| == |s| <==> '\0' !in s) && ('\0' !in s ==> c == s)
  {
    if s == [] || s[0] == '\0' then [] else [s[0]] + CString(s[1..])
  }

  /** It is what comes before the first NUL. */
  lemma {:induction false} CStringStopsAtNul(s: string)
    ensures CString(s) <= s && '\0' !in CString(s) && (|CString(s)| < |s| ==> s[|CString(s)|] == '\0')
  {
    if s != [] { CStringStopsAtNul(s[1..]); }
  }

  /** The next n characters of a line, or what there is. */
  function Prefix(l: string, n: nat): string {
    if n < |l| then l[..n] else l
  }

  function Join(head: string, more: seq<string>): seq<string> {
    if more == [] then [head] else [head + more[0]] + more[1..]
  }

  /** What is printed of any lines. A NUL hides what follows it in its row, and makes the loop believe that the line has
      ended: it skips one character, and the rest of the line counts as a line of its own. */
  function Shown(lines: seq<string>, n: nat): seq<string>
    requires n > 0
    decreases |lines|, if lines == [] then 0 else |lines[0]|
  {
    if lines == [] || lines[0] == [] then []
    else
      var l, later := lines[0], lines[1..];
      if '\0' in Prefix(l, n) then
        [CString(Prefix(l, n))] + Shown(if n < |l| then [l[n + 1..]] + later else later, n)
      else if |l| < n then [l] + Shown(later, n)
      else Join(l[..n], Shown([l[n..]] + later, n))
  }

  /** Without NULs that is what `Kept` says. */
  lemma {:induction false} ShownIsKept(lines: seq<string>, n: nat)
    requires n > 0 && forall i | 0 <= i < |lines| :: '\0' !in lines[i]
    ensures Shown(lines, n) == Kept(lines, n)
    decreases |lines|, if lines == [] then 0 else |lines[0]|
  {
    if lines != [] && lines[0] != [] {
      var l, later := lines[0], lines[1..];
      if |l| < n {
        ShownIsKept(later, n);
      } else {
        var rest := [l[n..]] + later;
        forall i | 0 <= i < |rest| ensures '\0' !in rest[i] {
          assert i > 0 ==> rest[i] == lines[i];
        }
        ShownIsKept(rest, n);
        assert rest[1..] == later && l == l[..n] + l[n..];
        assert '\0' !in Prefix(l, n) && Prefix(l, n) == l[..n];
        assert Shown(lines, n) == Join(l[..n], Kept(rest, n));
        if l[n..] == [] {
          assert Kept(rest, n) == [] && Fills(|l|, n);
        } else {
          var more := if Fills(|l|, n) then [] else Kept(later, n);
          assert Kept(rest, n) == [l[n..]] + more;
        }
      }
    }
  }

  lemma {:induction false} LinesAreClean(text: string)
    requires '\0' !in text
    ensures forall i | 0 <= i < |Lines(text)| :: '\0' !in Lines(text)[i]
    decreases |text|
  {
    FirstLineFits(text);
    var l := |FirstLine(text)|;
    if l < |text| { LinesAreClean(text[l + 1..]); }
  }

  /** `more` put behind `done`, its first line completing the last one of `done` if that is still open. */
  function Resume(done: seq<string>, open: bool, more: seq<string>): seq<string> {
    if open && done != [] && more != [] then done[..|done| - 1] + [done[|done| - 1] + more[0]] + more[1..]
    else done + more
  }

  /** The lines without the empty one that stands for a final newline. */
  function Chomp(lines: seq<string>): seq<string> {
    if lines != [] && lines[|lines| - 1] == [] then lines[..|lines| - 1] else lines
  }

  /** Only the last line may fill its rows completely, and none may be empty. */
  predicate Printable(lines: seq<string>, n: nat)
    requires n > 0
  {
    forall i | 0 <= i < |lines| :: lines[i] != [] && (i < |lines| - 1 ==> !Fills(|lines[i]|, n))
  }

  /** Where printing stops: it is the whole text, or an empty line follows, or the length of the last line printed is a
      multiple of the row length; no line before that has such a length or is empty. */
  lemma {:induction false} KeptIsPrefix(lines: seq<string>, n: nat)
    requires n > 0
    ensures var k := |Kept(lines, n)|;
            && k <= |lines| && Kept(lines, n) == lines[..k]
            && (forall i | 0 <= i < k :: lines[i] != [])
            && (forall i | 0 <= i < k - 1 :: !Multiple(|lines[i]|, n))
            && (k == |lines| || lines[k] == [] || (k > 0 && Multiple(|lines[k - 1]|, n)))
  {
    if lines != [] && lines[0] != [] {
      var l, rest := lines[0], lines[1..];
      FillsIffMultiple(|l|, n);
      if Fills(|l|, n) {
        assert Kept(lines, n) == lines[..1];
      } else {
        KeptIsPrefix(rest, n);
        var j := |Kept(rest, n)|;
        assert Kept(lines, n) == [l] + rest[..j] == lines[..j + 1];
        forall i | 0 <= i < j ensures !Multiple(|lines[i]|, n) {
          if i > 0 { assert lines[i] == rest[i - 1]; }
        }
      }
    }
  }

  /** The lines with a newline between each two. */
  function Joined(lines: seq<string>): string
    requires lines != []
  {
    if |lines| == 1 then lines[0] else lines[0] + "\n" + Joined(lines[1..])
  }

  /** Splitting into lines is undone by joining, and no line holds a newline. */
  lemma {:induction false} LinesJoin(text: string)
    ensures Joined(Lines(text)) == text
    ensures forall i | 0 <= i < |Lines(text)| :: '\n' !in Lines(text)[i]
    decreases |text|
  {
    FirstLineFits(text);
    var l := FirstLine(text);
    if |l| < |text| {
      LinesJoin(text[|l| + 1..]);
      assert Lines(text)[1..] == Lines(text[|l| + 1..]);
      assert text == l + "\n" + text[|l| + 1..];
    }
  }

  lemma {:induction false} KeepsAllIff(lines: seq<string>, n: nat)
    requires n > 0
    ensures Kept(lines, n) == lines <==> Printable(lines, n)
  {
    if |lines| > 1 {
      var rest := lines[1..];
      KeepsAllIff(rest, n);
      assert forall i | 1 <= i < |lines| :: lines[i] == rest[i - 1];
      if Kept(lines, n) == lines {
        assert Kept(rest, n) == lines[1..];
      }
    }
  }

  lemma {:induction false} KeptIgnoresEnd(lines: seq<string>, n: nat)
    requires n > 0
    ensures Kept(lines + [[]], n) == Kept(lines, n)
  {
    if lines != [] {
      assert (lines + [[]])[1..] == lines[1..] + [[]];
      KeptIgnoresEnd(lines[1..], n);
    }
  }

  /** Nothing but a final newline is lost exactly when no line is empty and no line but the last fills its rows. */
  lemma NothingLostIff(lines: seq<string>, n: nat)
    requires n > 0
    ensures Kept(lines, n) == Chomp(lines) <==> Printable(Chomp(lines), n)
  {
    KeepsAllIff(Chomp(lines), n);
    if lines != [] && lines[|lines| - 1] == [] {
      KeptIgnoresEnd(Chomp(lines), n);
      assert lines == Chomp(lines) + [[]];
    }
  }

  lemma UnwrapRow(rows: seq<Row>, r: Row)
    ensures Unwrap(rows + [r]) == Resume(Unwrap(rows), r.mark != CARAT, [r.body])
  {
  }

  lemma {:induction false} FirstLineDrop(text: string, n: nat)
    requires n <= |FirstLine(text)|
    ensures n <= |text| && FirstLine(text[n..]) == FirstLine(text)[n..]
  {
    if n > 0 {
      FirstLineDrop(text[1..], n - 1);
      assert text[1..][n - 1..] == text[n..];
    }
  }

  /** The lines after the first. */
  function LaterLines(text: string): seq<string> {
    var l := FirstLine(text);
    FirstLineFits(text);
    if |l| == |text| then [] else Lines(text[|l| + 1..])
  }

  lemma LinesSplit(text: string)
    ensures Lines(text) == [FirstLine(text)] + LaterLines(text)
  {
    FirstLineFits(text);
    if |FirstLine(text)| == |text| { assert FirstLine(text) == text; }
  }

  lemma LaterLinesDrop(text: string, n: nat)
    requires n <= |FirstLine(text)|
    ensures n <= |text| && LaterLines(text[n..]) == LaterLines(text)
  {
    hide Lines, FirstLine;
    FirstLineDrop(text, n);
    FirstLineFits(text);
    var l, rest := |FirstLine(text)|, text[n..];
    assert |FirstLine(rest)| == l - n && |rest| == |text| - n;
    if l < |text| { assert rest[l - n + 1..] == text[l + 1..]; }
  }

  lemma ResumeTwice(done: seq<string>, open: bool, a: string, b: string, more: seq<string>)
    requires open ==> done != []
    ensures Resume(Resume(done, open, [a]), true, [b] + more) == Resume(done, open, [a + b] + more)
  {
    if open {
      var last := done[|done| - 1];
      assert (last + a) + b == last + (a + b);
    }
  }

  lemma ResumeLine(done: seq<string>, open: bool, line: string, more: seq<string>)
    ensures Resume(Resume(done, open, [line]), false, more) == Resume(done, open, [line] + more)
  {
  }

  lemma LinesDrop(text: string, n: nat)
    requires n <= |FirstLine(text)|
    ensures n <= |text| && Lines(text[n..]) == [FirstLine(text)[n..]] + LaterLines(text)
    ensures text[..n] == FirstLine(text)[..n]
  {
    FirstLineFits(text);
    FirstLineDrop(text, n);
    LaterLinesDrop(text, n);
    LinesSplit(text[n..]);
  }

  lemma JoinResumes(done: seq<string>, open: bool, head: string, more: seq<string>)
    requires open ==> done != []
    ensures Resume(Resume(done, open, [head]), true, more) == Resume(done, open, Join(head, more))
  {
    if more == [] {
    } else {
      assert more == [more[0]] + more[1..];
      ResumeTwice(done, open, head, more[0], more[1..]);
    }
  }

  /** A chunk of the current line has been printed and the line may go on. */
  lemma WrapStep(done: seq<string>, open: bool, text: string, n: nat)
    requires 0 < n <= |FirstLine(text)| && '\0' !in FirstLine(text)[..n] && (open ==> done != [])
    ensures n <= |text|
    ensures Resume(Resume(done, open, [text[..n]]), true, Shown(Lines(text[n..]), n))
            == Resume(done, open, Shown(Lines(text), n))
  {
    LinesDrop(text, n);
    LinesSplit(text);
    JoinResumes(done, open, text[..n], Shown(Lines(text[n..]), n));
  }

  function SkipOne(text: string): string {
    if text == [] then [] else text[1..]
  }

  /** The rest of the current line has been printed, and its newline skipped. */
  lemma SkipNewline(text: string, n: nat)
    requires n > 0
    ensures |FirstLine(text)| <= |text|
    ensures Shown(Lines(SkipOne(text[|FirstLine(text)|..])), n) == Shown(LaterLines(text), n)
  {
    FirstLineFits(text);
    var l := |FirstLine(text)|;
    if l < |text| {
      assert SkipOne(text[l..]) == text[l + 1..];
    } else {
      assert SkipOne(text[l..]) == [] && Lines([]) == [[]];
    }
  }

  /** The loop takes the line for ended, because it is or because of a NUL, and skips a character. */
  lemma LineStep(done: seq<string>, open: bool, text: string, n: nat)
    requires n > 0 && Chunk(text, n) != [] && (|Chunk(text, n)| < n || '\0' in Chunk(text, n))
    ensures |Chunk(text, n)| <= |text|
    ensures Resume(Resume(done, open, [CString(Chunk(text, n))]), false,
                   Shown(Lines(SkipOne(text[|Chunk(text, n)|..])), n))
            == Resume(done, open, Shown(Lines(text), n))
  {
    hide Lines, FirstLine, Kept;
    FirstLineFits(text);
    LinesSplit(text);
    var l, later := FirstLine(text), LaterLines(text);
    var next := SkipOne(text[|Chunk(text, n)|..]);
    if n < |l| {
      LinesDrop(text, n + 1);
      assert next == text[n + 1..];
    } else {
      SkipNewline(text, n);
    }
    ResumeLine(done, open, CString(Chunk(text, n)), Shown(Lines(next), n));
  }

  /** `rows` and what is still to come from `rest` make up what is to be printed of the whole text. */
  ghost predicate Printed(rows: seq<Row>, open: bool, rest: string, whole: string, n: nat)
    requires n > 0
  {
    Resume(Unwrap(rows), open, Shown(Lines(rest), n)) == Shown(Lines(whole), n) && (open ==> rows != [])
  }

  /** What one `get` yields. */
  function Chunk(rest: string, n: nat): string {
    Prefix(FirstLine(rest), n)
  }

  lemma ReadOne(all: string, chunk: string, rest: string)
    requires all == chunk + rest && FirstLine(all) == chunk + FirstLine(rest)
    requires rest != [] && rest[0] != '\n'
    ensures all == (chunk + [rest[0]]) + rest[1..]
    ensures FirstLine(all) == (chunk + [rest[0]]) + FirstLine(rest[1..])
  {
  }

  /** Reading stops after n characters or before the newline, whichever comes first. */
  lemma ChunkRead(all: string, chunk: string, rest: string, n: nat)
    requires n > 0 && all == chunk + rest && FirstLine(all) == chunk + FirstLine(rest)
    requires |chunk| <= n && (|chunk| == n || FirstLine(rest) == [])
    ensures chunk == Chunk(all, n)
  {
  }

  // ----- where the rows come from, said of the characters of the text

  /** A row takes the characters from p to e, which ends at a newline, at the end of the text, or after n characters;
      its body is what comes before the first NUL in them. */
  predicate TakenFrom(text: string, n: nat, body: string, p: nat, e: nat) {
    && p < e <= |text| && e - p <= n && '\n' !in text[p..e]
    && (e - p == n || e == |text| || text[e] == '\n')
    && body <= text[p..e] && '\0' !in body && (|body| < e - p ==> text[p + |body|] == '\0')
  }

  /** Reading goes on at e behind a full body, and otherwise behind the character at e, if there is one. */
  function GoesOn(text: string, n: nat, body: string, e: nat): nat {
    if |body| == n || e >= |text| then e else e + 1
  }

  /** Where row i starts: at 0, or where reading goes on behind the row before. */
  function StartOf(rows: seq<Row>, text: string, n: nat, spans: seq<(nat, nat)>, i: nat): nat
    requires i <= |rows| == |spans|
  {
    if i == 0 then 0 else GoesOn(text, n, rows[i - 1].body, spans[i - 1].1)
  }

  /** Row i takes the characters of spans[i]; each starts where the one before says, the first at 0; after the last row
      reading goes on at `stop`. */
  predicate Placed(rows: seq<Row>, text: string, n: nat, spans: seq<(nat, nat)>, stop: nat) {
    && |spans| == |rows| && stop <= |text|
    && (forall i | 0 <= i < |rows| :: TakenFrom(text, n, rows[i].body, spans[i].0, spans[i].1))
    && (forall i | 0 <= i < |rows| :: spans[i].0 == StartOf(rows, text, n, spans, i))
    && stop == StartOf(rows, text, n, spans, |rows|)
  }

  /** All of the text is placed, up to an empty line or to its end. */
  ghost predicate TakenInOrder(rows: seq<Row>, text: string, n: nat) {
    exists spans, stop: nat :: Placed(rows, text, n, spans, stop) && (stop == |text| || text[stop] == '\n')
  }

  lemma NothingPlaced(text: string, n: nat)
    ensures Placed([], text, n, [], 0)
  {
  }

  lemma ChunkEnds(rest: string, n: nat)
    ensures var c := Chunk(rest, n);
            c <= rest && |c| <= n && '\n' !in c && (|c| == n || |c| == |rest| || rest[|c|] == '\n')
  {
    FirstLineFits(rest);
  }

  lemma ChunkTaken(text: string, n: nat, p: nat)
    requires n > 0 && p <= |text| && Chunk(text[p..], n) != []
    ensures var c := Chunk(text[p..], n);
            p + |c| <= |text| && c == text[p..p + |c|] && TakenFrom(text, n, CString(c), p, p + |c|)
  {
    hide Chunk, CString;
    var rest, c := text[p..], Chunk(text[p..], n);
    ChunkEnds(rest, n);
    CStringStopsAtNul(c);
    var e := p + |c|;
    assert text[p..e] == rest[..|c|] == c;
    if e < |text| { assert rest[|c|] == text[e]; }
  }

  lemma SameStart(rows: seq<Row>, text: string, n: nat, spans: seq<(nat, nat)>, r: Row, span: (nat, nat), i: nat)
    requires i <= |rows| == |spans|
    ensures StartOf(rows + [r], text, n, spans + [span], i) == StartOf(rows, text, n, spans, i)
  {
  }

  lemma StartsGrow(rows: seq<Row>, text: string, n: nat, spans: seq<(nat, nat)>, r: Row, span: (nat, nat))
    requires |rows| == |spans| && forall i | 0 <= i < |rows| :: spans[i].0 == StartOf(rows, text, n, spans, i)
    requires span.0 == StartOf(rows, text, n, spans, |rows|)
    ensures forall i | 0 <= i < |rows + [r]| ::
              (spans + [span])[i].0 == StartOf(rows + [r], text, n, spans + [span], i)
  {
    hide StartOf;
    var rows', spans' := rows + [r], spans + [span];
    forall i | 0 <= i < |rows'| ensures spans'[i].0 == StartOf(rows', text, n, spans', i) {
      SameStart(rows, text, n, spans, r, span, i);
    }
  }

  lemma SpansGrow(rows: seq<Row>, text: string, n: nat, spans: seq<(nat, nat)>, r: Row, span: (nat, nat))
    requires |rows| == |spans| && TakenFrom(text, n, r.body, span.0, span.1)
    requires forall i | 0 <= i < |rows| :: TakenFrom(text, n, rows[i].body, spans[i].0, spans[i].1)
    ensures forall i | 0 <= i < |rows + [r]| ::
              TakenFrom(text, n, (rows + [r])[i].body, (spans + [span])[i].0, (spans + [span])[i].1)
  {
    hide TakenFrom;
    forall i | 0 <= i < |rows + [r]|
      ensures TakenFrom(text, n, (rows + [r])[i].body, (spans + [span])[i].0, (spans + [span])[i].1)
    {
      if i < |rows| { assert TakenFrom(text, n, rows[i].body, spans[i].0, spans[i].1); }
    }
  }

  lemma PlacedGrows(rows: seq<Row>, text: string, n: nat, spans: seq<(nat, nat)>, stop: nat, r: Row, e: nat)
    requires Placed(rows, text, n, spans, stop) && TakenFrom(text, n, r.body, stop, e) && e <= |text|
    ensures Placed(rows + [r], text, n, spans + [(stop, e)], GoesOn(text, n, r.body, e))
  {
    GoesOnFits(text, n, r.body, e);
    assert StartOf(rows + [r], text, n, spans + [(stop, e)], |rows| + 1) == GoesOn(text, n, r.body, e);
    hide TakenFrom, GoesOn, StartOf;
    StartsGrow(rows, text, n, spans, r, (stop, e));
    SpansGrow(rows, text, n, spans, r, (stop, e));
  }

  lemma GoesOnFits(text: string, n: nat, body: string, e: nat)
    requires e <= |text|
    ensures GoesOn(text, n, body, e) <= |text|
    ensures text[GoesOn(text, n, body, e)..] == if |body| == n then text[e..] else SkipOne(text[e..])
  {
  }

  /** One more row, taken from where reading goes on. */
  lemma PlaceRow(rows: seq<Row>, text: string, n: nat, spans: seq<(nat, nat)>, stop: nat, r: Row)
      returns (e: nat, stop': nat)
    requires n > 0 && Placed(rows, text, n, spans, stop) && stop <= |text|
    requires Chunk(text[stop..], n) != [] && r.body == CString(Chunk(text[stop..], n))
    ensures Placed(rows + [r], text, n, spans + [(stop, e)], stop') && stop' <= |text|
    ensures |Chunk(text[stop..], n)| <= |text| - stop
    ensures var left := text[stop..][|Chunk(text[stop..], n)|..];
            text[stop'..] == if |r.body| == n then left else SkipOne(left)
  {
    hide Placed, TakenFrom, Chunk, SkipOne;
    ChunkTaken(text, n, stop);
    e := stop + |Chunk(text[stop..], n)|;
    TakenFits(text, n, r.body, stop, e);
    stop' := GoesOn(text, n, r.body, e);
    PlacedGrows(rows, text, n, spans, stop, r, e);
    GoesOnFits(text, n, r.body, e);
    assert text[stop..][e - stop..] == text[e..];
  }

  lemma TakenFits(text: string, n: nat, body: string, p: nat, e: nat)
    requires TakenFrom(text, n, body, p, e)
    ensures p < e <= |text|
  {
  }

  lemma ReadingStops(rows: seq<Row>, text: string, n: nat, spans: seq<(nat, nat)>, stop: nat)
    requires n > 0 && Placed(rows, text, n, spans, stop) && stop <= |text| && Chunk(text[stop..], n) == []
    ensures TakenInOrder(rows, text, n)
  {
    assert FirstLine(text[stop..]) == [];
    hide Placed;
    if stop < |text| { assert text[stop..][0] == text[stop]; }
  }

  lemma UnwrapNonEmpty(rows: seq<Row>)
    requires rows != []
    ensures Unwrap(rows) != []
  {
  }

  lemma PrintStep(rows: seq<Row>, open: bool, rest: string, whole: string, n: nat, r: Row)
    requires n > 0 && Printed(rows, open, rest, whole, n) && (r.mark == CARAT <==> !open)
    requires Chunk(rest, n) != [] && r.body == CString(Chunk(rest, n))
    ensures |Chunk(rest, n)| <= |rest|
    ensures var wrap, left := |r.body| == n, rest[|Chunk(rest, n)|..];
            Printed(rows + [r], wrap, if wrap then left else SkipOne(left), whole, n)
  {
    UnwrapRow(rows, r);
    if open { UnwrapNonEmpty(rows); }
    FirstLineFits(rest);
    var c := Chunk(rest, n);
    if |r.body| == n {
      assert c == FirstLine(rest)[..n] == rest[..n];
      WrapStep(Unwrap(rows), open, rest, n);
    } else {
      LineStep(Unwrap(rows), open, rest, n);
    }
  }

  lemma PrintEnds(rows: seq<Row>, open: bool, rest: string, whole: string, n: nat)
    requires n > 0 && Printed(rows, open, rest, whole, n) && Chunk(rest, n) == []
    ensures Unwrap(rows) == Shown(Lines(whole), n)
  {
    LinesSplit(rest);
  }

  lemma PrintStarts(text: string, n: nat)
    requires n > 0
    ensures Printed([], false, text, text, n)
  {
  }
}
