/** output.h: Dump::Print, Dump::Output and Dump::Filename. */
module Dumping {
  import opened Wrapping
  import opened Columns

  const MAX_BUFFER_LENGTH := 1024
  const SPACES_PER_INDENT := 2

  function Spaces(n: nat): (s: string)
    ensures |s| == n && forall c | c in s :: c == ' '
  {
    seq(n, _ => ' ')
  }

  /** The i-th row: only the first one carries the prompt itself. */
  predicate RowOk(r: Row, i: nat, prefix: nat, prompt: string, readLen: int) {
    && r.prompt == (if i == 0 then prompt else Spaces(prefix))
    && (r.mark == CARAT || r.mark == INDENT)
    && |r.body| <= readLen
  }

  /** A row starts with the carat exactly if it is the first or the row before it is not full. */
  predicate RowsOk(rows: seq<Row>, prefix: nat, prompt: string, readLen: int) {
    && (forall i | 0 <= i < |rows| :: RowOk(rows[i], i, prefix, prompt, readLen))
    && (forall i | 0 <= i < |rows| :: rows[i].mark == CARAT <==> i == 0 || |rows[i - 1].body| < readLen)
  }

  /** The rows, unwrapped, are what is printed of the lines of a text; without NULs in it that is what `Kept` says. */
  ghost predicate ShowsText(rows: seq<Row>, text: string, readLen: int) {
    if readLen <= 0 then rows == []
    else
      && Unwrap(rows) == Shown(Lines(text), readLen)
      && ('\0' !in text ==> Unwrap(rows) == Kept(Lines(text), readLen))
      && TakenInOrder(rows, text, readLen)
  }

  lemma RowsGrow(rows: seq<Row>, r: Row, prefix: nat, prompt: string, readLen: int)
    requires RowsOk(rows, prefix, prompt, readLen) && RowOk(r, |rows|, prefix, prompt, readLen)
    requires r.mark == CARAT <==> rows == [] || |rows[|rows| - 1].body| < readLen
    ensures RowsOk(rows + [r], prefix, prompt, readLen)
  {
    hide RowOk;
  }

  /** What the loop of `Print` has done: rows in shape, placed in the text and printed so far, `rest` still to read. */
  ghost predicate Progress(rows: seq<Row>, newline: bool, rest: string, text: string, prefix: nat, prompt: string,
                           n: nat, spans: seq<(nat, nat)>, stop: nat)
  {
    && n > 0 && RowsOk(rows, prefix, prompt, n)
    && (newline <==> rows == [] || |rows[|rows| - 1].body| < n)
    && Placed(rows, text, n, spans, stop) && stop <= |text| && text[stop..] == rest
    && Printed(rows, !newline, rest, text, n)
  }

  lemma ProgressStarts(text: string, prefix: nat, prompt: string, n: nat)
    requires n > 0
    ensures Progress([], true, text, text, prefix, prompt, n, [], 0)
  {
    PrintStarts(text, n);
    NothingPlaced(text, n);
    assert text[0..] == text;
  }

  lemma OneTurn(rows: seq<Row>, newline: bool, rest: string, text: string, prefix: nat, prompt: string, n: nat,
                spans: seq<(nat, nat)>, stop: nat, r: Row)
      returns (spans': seq<(nat, nat)>, stop': nat)
    requires Progress(rows, newline, rest, text, prefix, prompt, n, spans, stop)
    requires Chunk(rest, n) != [] && r.body == CString(Chunk(rest, n)) && RowOk(r, |rows|, prefix, prompt, n)
    requires r.mark == CARAT <==> newline
    ensures |Chunk(rest, n)| <= |rest|
    ensures var left := rest[|Chunk(rest, n)|..];
            Progress(rows + [r], |r.body| != n, if |r.body| == n then left else SkipOne(left), text, prefix, prompt, n,
                     spans', stop')
  {
    var e;
    e, stop' := PlaceRow(rows, text, n, spans, stop, r);
    spans' := spans + [(stop, e)];
    PrintStep(rows, !newline, rest, text, n, r);
    RowsGrow(rows, r, prefix, prompt, n);
    BodyFits(r, |rows|, prefix, prompt, n);
    hide RowsOk, Placed, Printed, Chunk, CString, SkipOne, RowOk;
  }

  lemma BodyFits(r: Row, i: nat, prefix: nat, prompt: string, n: nat)
    requires RowOk(r, i, prefix, prompt, n)
    ensures |r.body| <= n
  {
  }

  lemma AllShown(rows: seq<Row>, newline: bool, rest: string, text: string, prefix: nat, prompt: string, n: nat,
                 spans: seq<(nat, nat)>, stop: nat)
    requires Progress(rows, newline, rest, text, prefix, prompt, n, spans, stop) && Chunk(rest, n) == []
    ensures ShowsText(rows, text, n) && RowsOk(rows, prefix, prompt, n)
  {
    hide Printed, Placed, Chunk, Lines, Shown, Kept, Unwrap, TakenInOrder, RowsOk;
    PrintEnds(rows, !newline, rest, text, n);
    ReadingStops(rows, text, n, spans, stop);
    if '\0' !in text {
      LinesAreClean(text);
      ShownIsKept(Lines(text), n);
    }
  }

  lemma MarksDiffer()
    ensures CARAT != INDENT
  {
  }

  // ----- file name and line number

  const FILE_LENGTH := 14
  const LINE_LENGTH := 4
  const BOLD: string := Escape("[1;36")
  const COLON: string := Escape("[0;35") + ":"
  const RESET: string := Escape("[0")

  /** printf's %*s: right-justified, never cut. */
  function PadLeft(s: string, width: nat): string {
    if |s| >= width then s else Spaces(width - |s|) + s
  }

  function Decimal(n: nat): string {
    var digit := ['0' + (n % 10) as char];
    if n < 10 then digit else Decimal(n / 10) + digit
  }

  lemma {:induction false} DecimalIsPlain(n: nat)
    ensures ESC !in Decimal(n)
    ensures (n < 10 ==> |Decimal(n)| == 1) && (n < 100 ==> |Decimal(n)| <= 2)
    ensures (n < 1000 ==> |Decimal(n)| <= 3) && (n <= 9999 ==> |Decimal(n)| <= 4)
  {
    if n >= 10 { DecimalIsPlain(n / 10); }
  }

  /** The number a string of digits spells, read from left to right, with `sofar` to its left. */
  function Parse(s: string, sofar: nat): nat {
    if s == [] then sofar
    else Parse(s[1..], 10 * sofar + if '0' <= s[0] <= '9' then (s[0] - '0') as nat else 0)
  }

  predicate AllDigits(s: string) {
    forall c | c in s :: '0' <= c <= '9'
  }

  lemma {:induction false} ParseAppend(s: string, d: char, sofar: nat)
    requires '0' <= d <= '9'
    ensures Parse(s + [d], sofar) == 10 * Parse(s, sofar) + (d - '0') as nat
  {
    if s == [] {
      assert [d][1..] == [];
    } else {
      assert (s + [d])[1..] == s[1..] + [d];
      ParseAppend(s[1..], d, 10 * sofar + if '0' <= s[0] <= '9' then (s[0] - '0') as nat else 0);
    }
  }

  /** Decimal notation: digits only, no leading zero, and the right value. */
  lemma {:induction false} DecimalIsRight(n: nat)
    ensures Decimal(n) != [] && AllDigits(Decimal(n)) && Parse(Decimal(n), 0) == n
    ensures n > 0 ==> Decimal(n)[0] != '0'
    ensures n == 0 ==> Decimal(n) == "0"
  {
    var d := '0' + (n % 10) as char;
    if n < 10 {
      ParseAppend([], d, 0);
      assert [] + [d] == [d];
    } else {
      DecimalIsRight(n / 10);
      ParseAppend(Decimal(n / 10), d, 0);
    }
  }

  /** s shows the number n right-justified in a field of `width`. */
  predicate ShowsNumber(s: string, n: nat, width: nat) {
    exists b | 0 <= b < |s| ::
      && |s| == width && s[..b] == Spaces(b) && AllDigits(s[b..]) && Parse(s[b..], 0) == n
      && (s[b] == '0' ==> b == width - 1)
  }

  lemma PaddedNumber(n: nat, width: nat)
    requires |Decimal(n)| <= width
    ensures ShowsNumber(PadLeft(Decimal(n), width), n, width)
  {
    DecimalIsRight(n);
    hide Decimal, Parse, AllDigits;
    var s, b := PadLeft(Decimal(n), width), width - |Decimal(n)|;
    assert s == Spaces(b) + Decimal(n);
    assert s[..b] == Spaces(b) && s[b..] == Decimal(n);
  }

  /** f is where the base name of a path starts: no slash from there on, and it is the beginning or behind a slash. */
  predicate StartsBase(file: string, f: nat) {
    f <= |file| && '/' !in file[f..] && (f == 0 || file[f - 1] == '/')
  }

  /** s shows a base name right-justified in 14 columns, or the last 14 characters of a longer one. */
  predicate ShowsBase(s: string, base: string) {
    |s| == FILE_LENGTH &&
    if |base| <= FILE_LENGTH then s == Spaces(FILE_LENGTH - |base|) + base else s == base[|base| - FILE_LENGTH..]
  }

  /** The name and line fields shown for a position in a file. */
  ghost predicate Fields(file: string, line: nat, name: string, num: string) {
    && (exists f | 0 <= f <= |file| :: StartsBase(file, f) && ShowsBase(name, file[f..]))
    && ShowsNumber(num, line, LINE_LENGTH)
  }

  /** The two fields as printf lays them out. */
  lemma FieldsHold(file: string, f: nat, line: nat)
    requires StartsBase(file, f) && line <= 9999
    ensures var cut := if |file| - f > FILE_LENGTH then |file| - FILE_LENGTH else f;
            Fields(file, line, PadLeft(file[cut..], FILE_LENGTH), PadLeft(Decimal(line), LINE_LENGTH))
    ensures |PadLeft(file[f..], FILE_LENGTH)| >= FILE_LENGTH && |PadLeft(Decimal(line), LINE_LENGTH)| == LINE_LENGTH
  {
    hide ShowsNumber, Decimal;
    DecimalIsPlain(line);
    PaddedNumber(line, LINE_LENGTH);
    var base, cut := file[f..], if |file| - f > FILE_LENGTH then |file| - FILE_LENGTH else f;
    assert file[cut..] == if |base| > FILE_LENGTH then base[|base| - FILE_LENGTH..] else base;
    assert ShowsBase(PadLeft(file[cut..], FILE_LENGTH), file[f..]);
  }

  /** What follows the last slash. */
  function Basename(file: string): string {
    if file == [] || file[|file| - 1] == '/' then [] else Basename(file[..|file| - 1]) + [file[|file| - 1]]
  }

  lemma {:induction false} BasenameIsPlain(file: string)
    requires ESC !in file
    ensures ESC !in Basename(file) && |Basename(file)| <= |file|
  {
    if file != [] && file[|file| - 1] != '/' { BasenameIsPlain(file[..|file| - 1]); }
  }

  lemma {:induction false} BasenameExtends(file: string, f: nat)
    requires f <= |file| && '/' !in file[f..]
    ensures Basename(file) == Basename(file[..f]) + file[f..]
  {
    if f == |file| {
      assert file[..f] == file;
    } else {
      var init := file[..|file| - 1];
      assert file[f..] == init[f..] + [file[|file| - 1]] && init[..f] == file[..f];
      assert file[|file| - 1] in file[f..];
      BasenameExtends(init, f);
    }
  }

  /** Columns by which the prompt is wider than Output computes: the dots written over a cut file name also hit the
      escape sequence before it. */
  function Excess(file: string): nat {
    if |Basename(file)| > FILE_LENGTH then 7 else 0
  }

  /** What is visible of the escape sequence before a cut name, once the dots are written over its start. */
  function Dots(file: string): string {
    if |Basename(file)| > FILE_LENGTH then "...;36m" else []
  }

  /** What a terminal shows of the formatted name, */
  function VisibleName(file: string, name: string, num: string): string {
    Dots(file) + (name + ":" + num)
  }

  /** and of a prompt around it. */
  function VisiblePrompt(tag: string, name: string, indent: nat): string {
    tag + " (" + name + ")" + Spaces(indent)
  }

  /** The formatted name: visible text of 14 + 1 + 4 columns in 40 bytes. */
  lemma FilenameWidth(name: string, line: string)
    requires |name| == FILE_LENGTH && |line| == LINE_LENGTH && ESC !in name && ESC !in line
    ensures var s := BOLD + name + COLON + BOLD + line;
            |s| == 40 && Visible(s, false) == name + ":" + line && !Open(s, false)
  {
    hide Visible, Open;
    EscapeWidth("[1;36");
    EscapeWidth("[0;35");
    PlainWidth(name);
    PlainWidth(":");
    PlainWidth(line);
    WidthConcat(Escape("[0;35"), ":", false);
    WidthConcat(BOLD, name, false);
    WidthConcat(BOLD + name, COLON, false);
    WidthConcat(BOLD + name + COLON, BOLD, false);
    WidthConcat(BOLD + name + COLON + BOLD, line, false);
  }

  /** Overwriting the first three bytes by dots turns the seven bytes of the escape sequence into seven columns. */
  lemma DottedWidth(s: string)
    requires |s| == 40 && BOLD <= s
    ensures var d := "..." + s[3..];
            |d| == 40 && Visible(d, false) == "...;36m" + Visible(s, false) && Open(d, false) == Open(s, false)
  {
    hide Visible, Open;
    var d := "..." + s[3..];
    var rest := s[7..];
    EscapeWidth("[1;36");
    assert s == BOLD + rest;
    WidthConcat(BOLD, rest, false);
    assert BOLD[3..] == ";36m";
    assert d == "...;36m" + rest by { assert s[3..] == BOLD[3..] + rest; }
    PlainWidth("...;36m");
    WidthConcat("...;36m", rest, false);
  }

  /** The bytes of the formatted name: the dots are written over the start of the first escape sequence. */
  predicate FilenameOk(buffer: string, file: string, name: string, num: string) {
    buffer == (if |Basename(file)| > FILE_LENGTH then "..." + BOLD[3..] else BOLD) + name + COLON + BOLD + num
  }

  lemma FilenameBytes(file: string, name: string, num: string)
    requires |name| == FILE_LENGTH && |num| == LINE_LENGTH
    ensures var s := BOLD + name + COLON + BOLD + num;
            |s| == 40 && FilenameOk(if |Basename(file)| > FILE_LENGTH then "..." + s[3..] else s, file, name, num)
  {
    var s := BOLD + name + COLON + BOLD + num;
    assert s[3..] == BOLD[3..] + name + COLON + BOLD + num;
    assert "..." + s[3..] == ("..." + BOLD[3..]) + name + COLON + BOLD + num;
  }

  lemma FilenameIs(buffer: string, file: string, name: string, num: string)
    requires |name| == FILE_LENGTH && |num| == LINE_LENGTH && FilenameOk(buffer, file, name, num)
    ensures var s := BOLD + name + COLON + BOLD + num;
            BOLD <= s && buffer == if |Basename(file)| > FILE_LENGTH then "..." + s[3..] else s
  {
    FilenameBytes(file, name, num);
  }

  lemma FieldsArePlain(file: string, line: nat, name: string, num: string)
    requires Fields(file, line, name, num)
    ensures |name| == FILE_LENGTH && |num| == LINE_LENGTH && ESC !in num && (ESC !in file ==> ESC !in name)
  {
    var b :| 0 <= b < |num| && num[..b] == Spaces(b) && AllDigits(num[b..]);
    assert num == num[..b] + num[b..];
    var f :| 0 <= f <= |file| && StartsBase(file, f) && ShowsBase(name, file[f..]);
  }

  /** What a terminal shows of it. */
  lemma FilenameShows(buffer: string, file: string, line: nat, name: string, num: string)
    requires ESC !in file && Fields(file, line, name, num) && FilenameOk(buffer, file, name, num)
    ensures |buffer| == 40 && Visible(buffer, false) == VisibleName(file, name, num) && !Open(buffer, false)
  {
    hide Visible, Open;
    assert Dots(file) == if |Basename(file)| > FILE_LENGTH then "...;36m" else [];
    hide *;
    FieldsArePlain(file, line, name, num);
    FilenameWidth(name, num);
    FilenameIs(buffer, file, name, num);
    var shown := name + ":" + num;
    if |Basename(file)| > FILE_LENGTH {
      DottedWidth(BOLD + name + COLON + BOLD + num);
    } else {
      assert [] + shown == shown;
    }
  }

  /** The prompt of `Output`. */
  function Prompt(color: string, tag: string, filename: string, indent: nat): string {
    color + (tag + " (") + filename + color + ")" + RESET + Spaces(indent)
  }

  /** Neither the path nor the tag brings escape sequences of its own. */
  predicate Plain(file: string, tag: string) {
    ESC !in file && ESC !in tag
  }

  /** The bytes of the prompt. */
  predicate PromptOk(prompt: string, color: string, tag: string, filename: string, indentation: nat) {
    prompt == color + tag + " (" + filename + color + ")" + RESET + Spaces(2 * indentation)
  }

  lemma PromptLength(c: Channel, tag: string, filename: string, indent: nat)
    requires |filename| == 40
    ensures |Prompt(ChannelColor(c), tag, filename, indent)| == 61 + |tag| + indent && |ChannelColor(c)| == 7
    ensures indent % 2 == 0 ==>
              PromptOk(Prompt(ChannelColor(c), tag, filename, indent), ChannelColor(c), tag, filename, indent / 2)
  {
    ColorIsInvisible(c);
    assert ChannelColor(c) + (tag + " (") == ChannelColor(c) + tag + " (";
  }

  lemma PromptWidth(c: Channel, tag: string, filename: string, indent: nat)
    requires ESC !in tag && |filename| == 40 && !Open(filename, false)
    ensures var p := Prompt(ChannelColor(c), tag, filename, indent);
            && |p| == 61 + |tag| + indent
            && Visible(p, false) == VisiblePrompt(tag, Visible(filename, false), indent) && !Open(p, false)
  {
    hide Visible, Open;
    var color := ChannelColor(c);
    ColorIsInvisible(c);
    EscapeWidth("[0");
    PlainWidth(tag + " (");
    PlainWidth(")");
    PlainWidth(Spaces(indent));
    WidthConcat(color, tag + " (", false);
    WidthConcat(color + (tag + " ("), filename, false);
    WidthConcat(color + (tag + " (") + filename, color, false);
    WidthConcat(color + (tag + " (") + filename + color, ")", false);
    WidthConcat(color + (tag + " (") + filename + color + ")", RESET, false);
    WidthConcat(color + (tag + " (") + filename + color + ")" + RESET, Spaces(indent), false);
  }

  lemma VisibleLength(prompt: string, tag: string, file: string, line: nat, name: string, num: string, indent: nat)
    requires Fields(file, line, name, num)
    requires Visible(prompt, false) == VisiblePrompt(tag, VisibleName(file, name, num), 2 * indent)
    ensures Width(prompt, false) == 22 + |tag| + 2 * indent + Excess(file)
  {
    FieldsArePlain(file, line, name, num);
  }

  lemma PromptShows(prompt: string, c: Channel, tag: string, indentation: nat,
                    file: string, line: nat, name: string, num: string, filename: string)
    requires Fields(file, line, name, num) && FilenameOk(filename, file, name, num)
    requires prompt == Prompt(ChannelColor(c), tag, filename, indentation * SPACES_PER_INDENT)
    ensures PromptOk(prompt, ChannelColor(c), tag, filename, indentation)
    ensures Plain(file, tag) ==>
              && Visible(prompt, false) == VisiblePrompt(tag, VisibleName(file, name, num), 2 * indentation)
              && !Open(prompt, false) && Width(prompt, false) == 22 + |tag| + 2 * indentation + Excess(file)
  {
    assert indentation * SPACES_PER_INDENT == 2 * indentation;
    assert Plain(file, tag) <==> ESC !in file && ESC !in tag;
    hide *;
    FilenameLength(filename, file, line, name, num);
    PromptLength(c, tag, filename, 2 * indentation);
    if Plain(file, tag) {
      FilenameShows(filename, file, line, name, num);
      PromptWidth(c, tag, filename, 2 * indentation);
      VisibleLength(prompt, tag, file, line, name, num, indentation);
    }
  }

  lemma FilenameLength(filename: string, file: string, line: nat, name: string, num: string)
    requires Fields(file, line, name, num) && FilenameOk(filename, file, name, num)
    ensures |filename| == 40
  {
    FieldsArePlain(file, line, name, num);
    FilenameIs(filename, file, name, num);
    FilenameBytes(file, name, num);
  }

  lemma MarkWidth(mark: string)
    requires mark == CARAT || mark == INDENT
    ensures Width(mark, false) == 2 && !Open(mark, false)
  {
    if mark == CARAT {
      EscapeWidth("[1;32");
      EscapeWidth("[0");
      PlainWidth(">");
      PlainWidth(" ");
      var a, z := Escape("[1;32"), Escape("[0");
      WidthConcat(a, ">", false);
      WidthConcat(a + ">", z, false);
      WidthConcat(a + ">" + z, " ", false);
      assert CARAT == a + ">" + z + " ";
    } else {
      PlainWidth(INDENT);
    }
  }

  function RowText(r: Row): string {
    r.prompt + r.mark + r.body
  }

  /** A row takes at most `columns` columns, and exactly so many when its body is plain text of full length. */
  predicate RowFits(r: Row, columns: int, readLen: int) {
    && Width(RowText(r), false) <= columns
    && (ESC !in r.body && |r.body| == readLen ==> Width(RowText(r), false) == columns)
  }

  /** Every row fits the total, the first one with so much excess. */
  predicate AllFit(rows: seq<Row>, total: int, excess: nat, readLen: int) {
    forall i | 0 <= i < |rows| :: RowFits(rows[i], total + if i == 0 then excess else 0, readLen)
  }

  lemma RowWidth(r: Row, i: nat, prefix: nat, prompt: string, readLen: int)
    requires RowOk(r, i, prefix, prompt, readLen) && !Open(prompt, false)
    ensures var w := (if i == 0 then Width(prompt, false) else prefix) + 2 + readLen;
            && Width(RowText(r), false) <= w
            && (ESC !in r.body && |r.body| == readLen ==> Width(RowText(r), false) == w)
  {
    if ESC !in r.body { PlainWidth(r.body); }
    PlainWidth(Spaces(prefix));
    MarkWidth(r.mark);
    WidthConcat(r.prompt, r.mark, false);
    WidthConcat(r.prompt + r.mark, r.body, false);
    WidthAtMost(r.body, false);
  }

  lemma RowsFit(rows: seq<Row>, prefix: nat, prompt: string, total: int, excess: nat)
    requires RowsOk(rows, prefix, prompt, total - prefix - 2)
    requires Width(prompt, false) == prefix + excess && !Open(prompt, false)
    ensures AllFit(rows, total, excess, total - prefix - 2)
    ensures rows != [] ==> rows[0].prompt == prompt
  {
    forall i | 0 <= i < |rows|
      ensures RowFits(rows[i], total + if i == 0 then excess else 0, total - prefix - 2)
    {
      RowWidth(rows[i], i, prefix, prompt, total - prefix - 2);
    }
  }

  class Dump {
    /** What is left to read in ss_. */
    var ss: string
    const channel_: Channel
    const file_: string
    const line_: nat
    const maxTotalLength: int

    constructor (channel: Channel, file: string, line: nat, text: string, maxTotalLength: int)
      ensures ss == text && channel_ == channel && file_ == file && line_ == line
      ensures this.maxTotalLength == maxTotalLength
    {
      ss := text;
      channel_, file_, line_ := channel, file, line;
      this.maxTotalLength := maxTotalLength;
    }

    /** ss_.get(buffer, n + 1, '\n'): at most n characters, stopping before a newline; gcount is the length. */
    method Get(n: int) returns (chunk: string)
      modifies this
      ensures chunk == if n <= 0 then [] else Chunk(old(ss), n)
      ensures old(ss) == chunk + ss
    {
      chunk := [];
      FirstLineFits(ss);
      ghost var all := ss;
      while |chunk| < n && ss != [] && ss[0] != '\n'
        invariant all == chunk + ss && FirstLine(all) == chunk + FirstLine(ss)
        invariant |chunk| <= n || chunk == []
        decreases |ss|
      {
        ReadOne(all, chunk, ss);
        chunk := chunk + [ss[0]];
        ss := ss[1..];
      }
      if n > 0 { ChunkRead(all, chunk, ss, n); }
    }

    /** ss_.ignore(): one character, if there is one. */
    method Ignore()
      modifies this
      ensures ss == SkipOne(old(ss))
    {
      if ss != [] {
        ss := ss[1..];
      }
    }

    method Print(prefix: nat, prompt: string) returns (rows: seq<Row>)
      requires maxTotalLength - prefix - 2 <= MAX_BUFFER_LENGTH && prefix <= |prompt|
      modifies this
      ensures ShowsText(rows, old(ss), maxTotalLength - prefix - 2)
      ensures RowsOk(rows, prefix, prompt, maxTotalLength - prefix - 2)
    {
      ghost var text := ss;
      ghost var spans: seq<(nat, nat)>, stop: nat := [], 0;
      var readLen := maxTotalLength - prefix - 2;
      var shown, newline := prompt, true;
      rows := [];
      MarksDiffer();
      if readLen > 0 { ProgressStarts(text, prefix, prompt, readLen); }
      assert readLen <= 0 ==> ShowsText(rows, text, readLen) && RowsOk(rows, prefix, prompt, readLen);
      hide ShowsText, RowsOk, Progress, SkipOne;
      while true
        invariant shown == if rows == [] then prompt else Spaces(prefix)
        invariant readLen <= 0 ==> rows == []
        invariant readLen > 0 ==> Progress(rows, newline, ss, text, prefix, prompt, readLen, spans, stop)
        decreases |ss|
      {
        ghost var before := ss;
        var chunk := Get(readLen);
        if chunk == [] {
          if readLen > 0 { AllShown(rows, newline, before, text, prefix, prompt, readLen, spans, stop); }
          break;
        }
        var buffer := CString(chunk);
        var wrap := |buffer| == readLen;
        if !wrap {
          Ignore();
        }
        var row := Row(shown, if newline then CARAT else INDENT, buffer);
        spans, stop := OneTurn(rows, newline, before, text, prefix, prompt, readLen, spans, stop, row);
        rows := rows + [row];
        newline := !wrap;
        shown := Spaces(prefix);
      }
    }

    /** Finds where the base name starts, walking back from the end. */
    method BaseStart() returns (f: nat)
      ensures StartsBase(file_, f) && file_[f..] == Basename(file_)
    {
      f := |file_|;
      while f >= 1 && file_[f - 1] != '/'
        invariant f <= |file_| && '/' !in file_[f..]
      {
        assert file_[f - 1..] == [file_[f - 1]] + file_[f..];
        f := f - 1;
      }
      BasenameExtends(file_, f);
    }

    /** The two fields between their escape sequences; the dots overwrite the start of the first one. */
    method Filename() returns (buffer: string)
      requires line_ <= 9999
      ensures |buffer| == 40
      ensures exists name, num :: Fields(file_, line_, name, num) && FilenameOk(buffer, file_, name, num)
    {
      var f := BaseStart();
      var i := |file_| - f;
      if i > FILE_LENGTH {
        f := f + (i - FILE_LENGTH);
      }
      var name, num := PadLeft(file_[f..], FILE_LENGTH), PadLeft(Decimal(line_), LINE_LENGTH);
      FieldsHold(file_, |file_| - i, line_);
      hide Fields, PadLeft, Decimal, Basename, StartsBase;
      buffer := BOLD + name + COLON + BOLD + num;
      FilenameBytes(file_, name, num);
      if i > FILE_LENGTH {
        buffer := "..." + buffer[3..];
      }
    }

    /** The prompt holds the channel's colour, the tag and the file's fields; when those are plain text, a terminal
        shows the tag, the fields in parentheses and the indentation. */
    ghost predicate PromptFor(prompt: string, tag: string, indentation: nat) {
      exists name, num, filename ::
        && Fields(file_, line_, name, num) && FilenameOk(filename, file_, name, num)
        && PromptOk(prompt, ChannelColor(channel_), tag, filename, indentation)
        && (Plain(file_, tag) ==>
              Visible(prompt, false) == VisiblePrompt(tag, VisibleName(file_, name, num), 2 * indentation))
    }

    /** The prompt built from these fields is one for this tag. */
    lemma PromptFits(prompt: string, tag: string, indentation: nat, name: string, num: string, filename: string)
      requires Fields(file_, line_, name, num) && FilenameOk(filename, file_, name, num)
      requires prompt == Prompt(ChannelColor(channel_), tag, filename, indentation * SPACES_PER_INDENT)
      ensures PromptFor(prompt, tag, indentation)
      ensures Plain(file_, tag) ==>
                !Open(prompt, false) && Width(prompt, false) == 22 + |tag| + 2 * indentation + Excess(file_)
    {
      PromptShows(prompt, channel_, tag, indentation, file_, line_, name, num, filename);
    }

    /** The snprintf of `Output` and the width it computes for what was written. */
    method MakePrompt(tag: string, indentation: nat) returns (prompt: string, real_len: int)
      requires line_ <= 9999
      ensures |prompt| == 61 + |tag| + 2 * indentation && real_len == 22 + |tag| + 2 * indentation
      ensures PromptFor(prompt, tag, indentation) && (Plain(file_, tag) ==> !Open(prompt, false))
      ensures Plain(file_, tag) ==> Width(prompt, false) == real_len + Excess(file_)
    {
      var filename := Filename();
      ghost var name, num :| Fields(file_, line_, name, num) && FilenameOk(filename, file_, name, num);
      var color := ChannelColor(channel_);
      PromptLength(channel_, tag, filename, indentation * SPACES_PER_INDENT);
      hide *;
      prompt := Prompt(color, tag, filename, indentation * SPACES_PER_INDENT);
      var written := |prompt|;
      real_len := written - |color| * 5 - 4;
      PromptFits(prompt, tag, indentation, name, num, filename);
    }

    /** The characters of text a row of `Output` holds. */
    function ReadLen(tag: string, indentation: nat): int {
      maxTotalLength - (22 + |tag| + 2 * indentation) - 2
    }

    /** What the rows of `Output` look like. */
    ghost predicate WellFormed(rows: seq<Row>, tag: string, indentation: nat) {
      && (exists prompt :: PromptFor(prompt, tag, indentation) &&
            RowsOk(rows, 22 + |tag| + 2 * indentation, prompt, ReadLen(tag, indentation)))
      && (Plain(file_, tag) ==> AllFit(rows, maxTotalLength, Excess(file_), ReadLen(tag, indentation)))
      && (Plain(file_, tag) && rows != [] ==>
            Width(rows[0].prompt, false) == 22 + |tag| + 2 * indentation + Excess(file_))
    }

    lemma RowsAreWellFormed(rows: seq<Row>, tag: string, indentation: nat, prompt: string)
      requires PromptFor(prompt, tag, indentation)
      requires RowsOk(rows, 22 + |tag| + 2 * indentation, prompt, ReadLen(tag, indentation))
      requires Plain(file_, tag) ==>
                 !Open(prompt, false) && Width(prompt, false) == 22 + |tag| + 2 * indentation + Excess(file_)
      ensures WellFormed(rows, tag, indentation)
    {
      hide RowsOk, PromptFor, AllFit, Width, Open, Plain;
      if Plain(file_, tag) {
        RowsFit(rows, 22 + |tag| + 2 * indentation, prompt, maxTotalLength, Excess(file_));
      }
    }

    /** The verbose branch of `Output`. The length written fits the buffer, as the source asserts. */
    method Output(tag: string, indentation: nat) returns (rows: seq<Row>)
      requires line_ <= 9999 && 61 + |tag| + 2 * indentation < MAX_BUFFER_LENGTH
      requires ReadLen(tag, indentation) <= MAX_BUFFER_LENGTH
      modifies this
      ensures ShowsText(rows, old(ss), ReadLen(tag, indentation))
      ensures WellFormed(rows, tag, indentation)
    {
      hide ShowsText, WellFormed, RowsOk, PromptFor, Width, Open, Plain;
      var prompt, real_len := MakePrompt(tag, indentation);
      rows := Print(real_len, prompt);
      RowsAreWellFormed(rows, tag, indentation, prompt);
    }
  }
}
