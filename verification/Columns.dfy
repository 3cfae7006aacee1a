/** output.h: the columns a string takes on a terminal, and the channels' colours. */
module Columns {
  import opened Wrapping

  // ----- visible columns

  /** What a terminal shows of s; `inside` says that s starts within an escape sequence, which ends at its 'm'. */
  function Visible(s: string, inside: bool): string {
    if s == [] then []
    else if inside then Visible(s[1..], s[0] != 'm')
    else if s[0] == ESC then Visible(s[1..], true)
    else [s[0]] + Visible(s[1..], false)
  }

  /** Columns of s on a terminal. */
  function Width(s: string, inside: bool): nat {
    |Visible(s, inside)|
  }

  /** Whether an escape sequence is still open after s. */
  predicate Open(s: string, inside: bool) {
    if s == [] then inside
    else if inside then Open(s[1..], s[0] != 'm')
    else Open(s[1..], s[0] == ESC)
  }

  lemma {:induction false} WidthConcat(s: string, t: string, inside: bool)
    ensures Visible(s + t, inside) == Visible(s, inside) + Visible(t, Open(s, inside))
    ensures Open(s + t, inside) == Open(t, Open(s, inside))
  {
    if s == [] {
      assert s + t == t;
    } else {
      assert (s + t)[1..] == s[1..] + t;
      WidthConcat(s[1..], t, if inside then s[0] != 'm' else s[0] == ESC);
    }
  }

  lemma {:induction false} PlainWidth(s: string)
    requires ESC !in s
    ensures Visible(s, false) == s && !Open(s, false)
  {
    if s != [] { PlainWidth(s[1..]); }
  }

  lemma {:induction false} WidthAtMost(s: string, inside: bool)
    ensures Width(s, inside) <= |s|
  {
    if s != [] { WidthAtMost(s[1..], if inside then s[0] != 'm' else s[0] == ESC); }
  }

  lemma {:induction false} InsideEscape(s: string)
    requires 'm' !in s
    ensures Visible(s + "m", true) == [] && !Open(s + "m", true)
  {
    if s == [] {
      assert s + "m" == "m" && "m"[1..] == [];
    } else {
      assert (s + "m")[1..] == s[1..] + "m";
      InsideEscape(s[1..]);
    }
  }

  function Escape(code: string): string {
    [ESC] + (code + "m")
  }

  /** A complete escape sequence takes no columns. */
  lemma EscapeWidth(code: string)
    requires 'm' !in code
    ensures Visible(Escape(code), false) == [] && !Open(Escape(code), false)
  {
    InsideEscape(code);
    assert Escape(code)[1..] == code + "m";
  }

  // ----- channels

  datatype Channel = OUT | ERR | FTL | BRK | DBG | DMY | BUF

  const CHANNEL_MAP: seq<(Channel, string)> := [
    (OUT, "[1;35"), (ERR, "[1;31"), (FTL, "[1;31"), (BRK, "[1;31"), (DBG, "[1;35"), (DMY, "[0;35"), (BUF, "[0;34")]

  predicate Listed(c: Channel, entries: seq<(Channel, string)>) {
    exists i :: 0 <= i < |entries| && entries[i].0 == c
  }

  /** channelMetadata: the first entry for the channel. */
  function ColorIn(c: Channel, entries: seq<(Channel, string)>): string
    requires Listed(c, entries)
  {
    if entries[0].0 == c then entries[0].1 else ColorIn(c, entries[1..])
  }

  lemma EveryChannelListed(c: Channel)
    ensures Listed(c, CHANNEL_MAP)
  {
    var i := match c case OUT => 0 case ERR => 1 case FTL => 2 case BRK => 3 case DBG => 4 case DMY => 5 case BUF => 6;
    assert CHANNEL_MAP[i].0 == c;
  }

  lemma {:induction false} ColorComesFromMap(c: Channel, entries: seq<(Channel, string)>)
    requires Listed(c, entries)
    ensures exists i :: 0 <= i < |entries| && entries[i] == (c, ColorIn(c, entries))
  {
    if entries[0].0 != c {
      ColorComesFromMap(c, entries[1..]);
      var i :| 0 <= i < |entries| - 1 && entries[1..][i] == (c, ColorIn(c, entries[1..]));
      assert entries[i + 1] == (c, ColorIn(c, entries));
    } else {
      assert entries[0] == (c, ColorIn(c, entries));
    }
  }

  function ChannelColor(c: Channel): string {
    EveryChannelListed(c);
    Escape(ColorIn(c, CHANNEL_MAP))
  }

  /** Every colour is the channel's entry in the table, seven bytes long and invisible. */
  lemma ColorIsInvisible(c: Channel)
    ensures exists i :: 0 <= i < |CHANNEL_MAP| && CHANNEL_MAP[i].0 == c && ChannelColor(c) == Escape(CHANNEL_MAP[i].1)
    ensures |ChannelColor(c)| == 7 && Width(ChannelColor(c), false) == 0 && !Open(ChannelColor(c), false)
  {
    EveryChannelListed(c);
    ColorComesFromMap(c, CHANNEL_MAP);
    var i :| 0 <= i < |CHANNEL_MAP| && CHANNEL_MAP[i] == (c, ColorIn(c, CHANNEL_MAP));
    assert CHANNEL_MAP[i].0 == c;
    EscapeWidth(ColorIn(c, CHANNEL_MAP));
  }
}
