/**
 * The background colour of the desktop wallet's main window: the theme's
 * body background, or a dark blue default, with an `rgb(...)` colour
 * rewritten as `#` followed by two hex digits per decimal component.
 *
 * Each decimal run `b` of the colour becomes `(b | 256).toString(16).slice(1)`.
 * In JavaScript `|` first takes the number modulo 2^32 as a signed 32-bit
 * integer; setting bit 8 of a component below 256 adds 256, so the hex text
 * is `1` followed by the component's two hex digits, and `slice(1)` drops
 * the `1`.
 */
module BackgroundColor {
  import opened Wrappers
  import opened JsStrings

  /** The colour used when the theme gives none. */
  const DefaultBackground: string := "rgb(3, 41, 62)"

  const Pow32: nat := 0x1_0000_0000
  const Pow31: nat := 0x8000_0000

  /**
   * `(settings.theme && settings.theme.body.bg) || 'rgb(3, 41, 62)'`, where
   * `themeBg` is `None` when there is no theme or the theme has no body
   * background; an empty string is falsy and falls back to the default.
   */
  function ThemeBackground(themeBg: Option<string>): (c: string)
    ensures c != ""
    ensures themeBg.Some? && themeBg.value != "" ==> c == themeBg.value
    ensures themeBg.None? || themeBg.value == "" ==> c == DefaultBackground
  {
    if themeBg.Some? && themeBg.value != "" then themeBg.value else DefaultBackground
  }

  predicate IsDigit(c: char)
  {
    '0' <= c <= '9'
  }

  predicate AllDigits(s: string)
  {
    forall i :: 0 <= i < |s| ==> IsDigit(s[i])
  }

  /** The length of the run of digits `s` starts with. */
  function LeadingDigits(s: string): (n: nat)
    ensures n <= |s|
    ensures AllDigits(s[..n])
    ensures n < |s| ==> !IsDigit(s[n])
  {
    if s != [] && IsDigit(s[0]) then
      var m := LeadingDigits(s[1..]);
      assert s[..1 + m] == [s[0]] + s[1..][..m];
      1 + m
    else 0
  }

  /** `s.match(/[0-9]+/g)`: the maximal runs of digits, left to right (`[]` where JavaScript gives `null`). */
  function DigitRuns(s: string): (runs: seq<string>)
    ensures forall i :: 0 <= i < |runs| ==> runs[i] != [] && AllDigits(runs[i])
    decreases |s|
  {
    if s == [] then []
    else if !IsDigit(s[0]) then DigitRuns(s[1..])
    else
      var n := LeadingDigits(s);
      [s[..n]] + DigitRuns(s[n..])
  }

  /** The digits of `s`, in order: the reference the runs are compared with. */
  function DigitsOf(s: string): string
  {
    if s == [] then [] else (if IsDigit(s[0]) then [s[0]] else []) + DigitsOf(s[1..])
  }

  function Flatten(runs: seq<string>): string
  {
    if runs == [] then [] else runs[0] + Flatten(runs[1..])
  }

  lemma {:induction false} FlattenSnoc(runs: seq<string>, r: string)
    ensures Flatten(runs + [r]) == Flatten(runs) + r
  {
    if runs == [] {
      assert [] + [r] == [r];
    } else {
      assert (runs + [r])[1..] == runs[1..] + [r];
      FlattenSnoc(runs[1..], r);
    }
  }

  lemma {:induction false} DigitsOfAppend(a: string, b: string)
    ensures DigitsOf(a + b) == DigitsOf(a) + DigitsOf(b)
    decreases |a|
  {
    if a != [] {
      assert (a + b)[1..] == a[1..] + b;
      DigitsOfAppend(a[1..], b);
    } else {
      assert a + b == b;
    }
  }

  lemma {:induction false} DigitsOfAllDigits(s: string)
    requires AllDigits(s)
    ensures DigitsOf(s) == s
    decreases |s|
  {
    if s != [] {
      DigitsOfAllDigits(s[1..]);
    }
  }

  /** The runs hold every digit of the colour and nothing else, in order. */
  lemma {:induction false} RunsCoverDigits(s: string)
    ensures Flatten(DigitRuns(s)) == DigitsOf(s)
    decreases |s|
  {
    if s == [] {
    } else if !IsDigit(s[0]) {
      RunsCoverDigits(s[1..]);
    } else {
      var n := LeadingDigits(s);
      RunsCoverDigits(s[n..]);
      assert s == s[..n] + s[n..];
      DigitsOfAppend(s[..n], s[n..]);
      DigitsOfAllDigits(s[..n]);
      assert DigitRuns(s)[1..] == DigitRuns(s[n..]);
    }
  }

  /** A run of digits followed by a non-digit (or by nothing) is the first run. */
  lemma RunThenRest(d: string, rest: string)
    requires d != [] && AllDigits(d)
    requires rest != [] ==> !IsDigit(rest[0])
    ensures DigitRuns(d + rest) == [d] + DigitRuns(rest)
  {
    var s := d + rest;
    LeadingPrefix(d, rest);
    assert s[..|d|] == d && s[|d|..] == rest;
  }

  lemma {:induction false} LeadingPrefix(d: string, rest: string)
    requires AllDigits(d)
    requires rest != [] ==> !IsDigit(rest[0])
    ensures LeadingDigits(d + rest) == |d|
    decreases |d|
  {
    if d != [] {
      assert (d + rest)[1..] == d[1..] + rest;
      LeadingPrefix(d[1..], rest);
    } else {
      assert d + rest == rest;
    }
  }

  /** Characters that are not digits contribute no run. */
  lemma {:induction false} NoDigitsNoRuns(p: string, s: string)
    requires forall i :: 0 <= i < |p| ==> !IsDigit(p[i])
    ensures DigitRuns(p + s) == DigitRuns(s)
    decreases |p|
  {
    if p != [] {
      assert (p + s)[1..] == p[1..] + s;
      NoDigitsNoRuns(p[1..], s);
    } else {
      assert p + s == s;
    }
  }

  function DigitValue(c: char): nat
    requires IsDigit(c)
  {
    c as int - '0' as int
  }

  /** The number a run of decimal digits denotes (`Number(run)`). */
  function DecimalValue(run: string): nat
    requires AllDigits(run)
  {
    if run == [] then 0 else DecimalValue(run[..|run| - 1]) * 10 + DigitValue(run[|run| - 1])
  }

  /** A signed 32-bit result read back from its unsigned bit pattern. */
  function Signed(u: nat): (r: int)
    requires u < Pow32
    ensures -(Pow31 as int) <= r < Pow31
    ensures r % Pow32 == u
  {
    if u >= Pow31 then u - Pow32 else u
  }

  /** `n | 256`: bit 8 set on `n` modulo 2^32, read as a signed 32-bit integer. */
  function Or256(n: nat): (r: int)
    ensures -(Pow31 as int) <= r < Pow31
    ensures (r % Pow32) / 256 % 2 == 1
    ensures r % Pow32 == n % Pow32 || r % Pow32 == n % Pow32 + 256
  {
    var u := n % Pow32;
    var v := if u / 256 % 2 == 1 then u else u + 256;
    Signed(v)
  }

  function HexDigit(d: nat): (c: char)
    requires d < 16
  {
    "0123456789abcdef"[d]
  }

  /** `n.toString(16)` for `n >= 0`: lower-case hex digits, most significant first. */
  function Hex(n: nat): (s: string)
    ensures |s| >= 1
  {
    if n < 16 then [HexDigit(n)] else Hex(n / 16) + [HexDigit(n % 16)]
  }

  /** `x.toString(16)`: a minus sign before the digits of a negative number. */
  function HexOf(x: int): (s: string)
    ensures |s| >= 1
  {
    if x < 0 then "-" + Hex(-x) else Hex(x)
  }

  /** `(run | 256).toString(16).slice(1)`. */
  function ComponentHex(run: string): string
    requires AllDigits(run)
  {
    HexOf(Or256(DecimalValue(run)))[1..]
  }

  /** `(b | 256).toString(16).slice(1)` for each run `b`, in order. */
  function ComponentHexes(runs: seq<string>): (hs: seq<string>)
    requires forall i :: 0 <= i < |runs| ==> AllDigits(runs[i])
    ensures |hs| == |runs|
  {
    seq(|runs|, i requires 0 <= i < |runs| => ComponentHex(runs[i]))
  }

  /** `texts.reduce((a, t) => a + t, '#')`. */
  function Reduce(texts: seq<string>): (hex: string)
    ensures |hex| >= 1 && hex[0] == '#'
  {
    if texts == [] then "#" else Reduce(texts[..|texts| - 1]) + texts[|texts| - 1]
  }

  /** The left fold is `#` followed by the texts, in order. */
  lemma {:induction false} ReduceFlattens(texts: seq<string>)
    ensures Reduce(texts) == "#" + Flatten(texts)
  {
    if texts != [] {
      var n := |texts| - 1;
      ReduceFlattens(texts[..n]);
      FlattenSnoc(texts[..n], texts[n]);
      assert texts[..n] + [texts[n]] == texts;
    }
  }

  /**
   * `runs.reduce((a, b) => a + (b | 256).toString(16).slice(1), '#')`: the
   * reducer appends the hex text of one run, so the fold is the fold of the
   * runs' hex texts.
   */
  function EncodeRuns(runs: seq<string>): (hex: string)
    requires forall i :: 0 <= i < |runs| ==> AllDigits(runs[i])
    ensures |hex| >= 1 && hex[0] == '#'
  {
    Reduce(ComponentHexes(runs))
  }

  /** The reduction is `#` followed by the hex text of every run, left to right. */
  lemma EncodeRunsFlattens(runs: seq<string>)
    requires forall i :: 0 <= i < |runs| ==> AllDigits(runs[i])
    ensures EncodeRuns(runs) == "#" + Flatten(ComponentHexes(runs))
  {
    ReduceFlattens(ComponentHexes(runs));
  }

  /**
   * The colour the main window is created with. `None` is the case the
   * JavaScript cannot survive: an `rgb` colour with no digits, where
   * `match` gives `null` and `reduce` on it throws.
   */
  function WindowBackground(themeBg: Option<string>): (r: Option<string>)
    ensures !IsPrefix("rgb", ThemeBackground(themeBg)) ==> r == Some(ThemeBackground(themeBg))
    ensures IsPrefix("rgb", ThemeBackground(themeBg)) ==>
              (r.None? <==> DigitsOf(ThemeBackground(themeBg)) == [])
    ensures IsPrefix("rgb", ThemeBackground(themeBg)) && r.Some? ==> r.value != [] && r.value[0] == '#'
  {
    var c := ThemeBackground(themeBg);
    IndexOfZeroIsPrefix(c, "rgb");
    RunsCoverDigits(c);
    if IndexOf(c, "rgb") == 0 then
      var runs := DigitRuns(c);
      if runs == [] then None else Some(EncodeRuns(runs))
    else Some(c)
  }

  /** Two hex digits for a byte. */
  function HexByte(b: nat): string
    requires b < 256
  {
    [HexDigit(b / 16), HexDigit(b % 16)]
  }

  /** The value of a lower-case hex digit, the inverse of `HexDigit`. */
  function HexDigitValue(c: char): (d: nat)
    ensures d < 16
  {
    if '0' <= c <= '9' then c as int - '0' as int
    else if 'a' <= c <= 'f' then c as int - 'a' as int + 10
    else 0
  }

  /** Reads two hex digits back as a byte. */
  function ParseHexByte(s: string): (b: nat)
    requires |s| == 2
    ensures b < 256
  {
    HexDigitValue(s[0]) * 16 + HexDigitValue(s[1])
  }

  lemma HexDigitRoundTrip(d: nat)
    requires d < 16
    ensures HexDigitValue(HexDigit(d)) == d
  {
  }

  /** Reading the two digits back gives the byte. */
  lemma HexByteRoundTrip(b: nat)
    requires b < 256
    ensures ParseHexByte(HexByte(b)) == b
  {
    HexDigitRoundTrip(b / 16);
    HexDigitRoundTrip(b % 16);
  }

  /** A component from 0 to 255 becomes exactly its two lower-case hex digits. */
  lemma ComponentIsHexByte(run: string)
    requires AllDigits(run) && DecimalValue(run) < 256
    ensures ComponentHex(run) == HexByte(DecimalValue(run))
  {
    var b := DecimalValue(run);
    Or256OfByte(b);
    HexAbove256(b);
    assert HexOf(Or256(b)) == "1" + HexByte(b);
  }

  /** Below 256, bit 8 is clear, so `b | 256` is `b + 256`. */
  lemma Or256OfByte(b: nat)
    requires b < 256
    ensures Or256(b) == b + 256
  {
    assert b % Pow32 == b;
    assert b / 256 == 0;
  }

  /** `b + 256` in hex is `1` followed by the two hex digits of `b`. */
  lemma HexAbove256(b: nat)
    requires b < 256
    ensures Hex(b + 256) == "1" + HexByte(b)
  {
    var v := b + 256;
    assert v / 16 == 16 + b / 16 && v % 16 == b % 16;
    assert (16 + b / 16) / 16 == 1 && (16 + b / 16) % 16 == b / 16;
    assert Hex(16 + b / 16) == Hex(1) + [HexDigit(b / 16)];
  }

  /** The colour `rgb(r, g, b)`, written with the decimal runs `dr`, `dg`, `db`. */
  function RgbText(dr: string, dg: string, db: string): string
  {
    "rgb(" + dr + ", " + dg + ", " + db + ")"
  }

  predicate IsComponent(d: string)
  {
    d != [] && AllDigits(d) && DecimalValue(d) < 256
  }

  /** A run, then a separator without digits: the run comes first, then the runs after the separator. */
  lemma RunThenSeparator(d: string, sep: string, rest: string)
    requires d != [] && AllDigits(d)
    requires sep != [] && forall i :: 0 <= i < |sep| ==> !IsDigit(sep[i])
    ensures DigitRuns(d + (sep + rest)) == [d] + DigitRuns(rest)
  {
    RunThenRest(d, sep + rest);
    NoDigitsNoRuns(sep, rest);
  }

  lemma RgbRuns(dr: string, dg: string, db: string)
    requires IsComponent(dr) && IsComponent(dg) && IsComponent(db)
    ensures DigitRuns(RgbText(dr, dg, db)) == [dr, dg, db]
  {
    var rest := ", " + (dg + (", " + (db + ")")));
    RgbTailRuns(dg, db);
    RunThenSeparator(dr, ", ", dg + (", " + (db + ")")));
    NoDigitsNoRuns("rgb(", dr + rest);
    assert "rgb(" + (dr + rest) == RgbText(dr, dg, db);
  }

  /** The runs of `g, b)`, written `dg, db)`. */
  lemma RgbTailRuns(dg: string, db: string)
    requires IsComponent(dg) && IsComponent(db)
    ensures DigitRuns(dg + (", " + (db + ")"))) == [dg, db]
  {
    RunThenSeparator(db, ")", []);
    assert ")" + [] == ")";
    RunThenSeparator(dg, ", ", db + ")");
  }

  /** The fold adds one component's hex text per run. */
  lemma EncodeSnoc(runs: seq<string>, d: string)
    requires forall i :: 0 <= i < |runs| ==> AllDigits(runs[i])
    requires AllDigits(d)
    ensures EncodeRuns(runs + [d]) == EncodeRuns(runs) + ComponentHex(d)
  {
    var hs := ComponentHexes(runs);
    assert ComponentHexes(runs + [d]) == hs + [ComponentHex(d)];
    assert (hs + [ComponentHex(d)])[..|hs|] == hs;
  }

  /** Three components from 0 to 255 are encoded as `#` and their hex digits. */
  lemma EncodeThreeBytes(dr: string, dg: string, db: string)
    requires IsComponent(dr) && IsComponent(dg) && IsComponent(db)
    ensures EncodeRuns([dr, dg, db])
         == "#" + HexByte(DecimalValue(dr)) + HexByte(DecimalValue(dg)) + HexByte(DecimalValue(db))
  {
    EncodeThree(dr, dg, db);
    ComponentIsHexByte(dr);
    ComponentIsHexByte(dg);
    ComponentIsHexByte(db);
  }

  /** Folding three runs appends their three hex texts to `#`. */
  lemma EncodeThree(dr: string, dg: string, db: string)
    requires AllDigits(dr) && AllDigits(dg) && AllDigits(db)
    ensures EncodeRuns([dr, dg, db]) == "#" + ComponentHex(dr) + ComponentHex(dg) + ComponentHex(db)
  {
    EncodeSnoc([], dr);
    assert [] + [dr] == [dr];
    EncodeSnoc([dr], dg);
    assert [dr] + [dg] == [dr, dg];
    EncodeSnoc([dr, dg], db);
    assert [dr, dg] + [db] == [dr, dg, db];
  }

  /** `rgb(r, g, b)` with components from 0 to 255 becomes `#rrggbb`. */
  lemma RgbBecomesHex(dr: string, dg: string, db: string)
    requires IsComponent(dr) && IsComponent(dg) && IsComponent(db)
    ensures WindowBackground(Some(RgbText(dr, dg, db)))
         == Some("#" + HexByte(DecimalValue(dr)) + HexByte(DecimalValue(dg)) + HexByte(DecimalValue(db)))
  {
    var c := RgbText(dr, dg, db);
    assert ThemeBackground(Some(c)) == c;
    assert c[..3] == "rgb";
    IndexOfZeroIsPrefix(c, "rgb");
    RgbRuns(dr, dg, db);
    EncodeThreeBytes(dr, dg, db);
  }

  /** The two hex digits of each run, for runs that are bytes. */
  function HexBytes(runs: seq<string>): (hs: seq<string>)
    requires forall i :: 0 <= i < |runs| ==> AllDigits(runs[i]) && DecimalValue(runs[i]) < 256
    ensures |hs| == |runs|
    ensures forall i :: 0 <= i < |runs| ==> hs[i] == HexByte(DecimalValue(runs[i]))
  {
    seq(|runs|, i requires 0 <= i < |runs| => HexByte(DecimalValue(runs[i])))
  }

  /**
   * Any colour starting with `rgb` whose decimal runs are all bytes, however
   * it is spaced or punctuated (`rgb(3,41,62)`, `rgba(3, 41, 62, 1)`), becomes
   * `#` followed by two hex digits per run.
   */
  lemma RgbColourEncoded(c: string)
    requires IsPrefix("rgb", c) && DigitRuns(c) != []
    requires forall i :: 0 <= i < |DigitRuns(c)| ==> DecimalValue(DigitRuns(c)[i]) < 256
    ensures WindowBackground(Some(c)) == Some("#" + Flatten(HexBytes(DigitRuns(c))))
  {
    var runs := DigitRuns(c);
    assert ThemeBackground(Some(c)) == c;
    IndexOfZeroIsPrefix(c, "rgb");
    EncodeRunsFlattens(runs);
    forall i | 0 <= i < |runs| ensures ComponentHexes(runs)[i] == HexBytes(runs)[i] {
      ComponentIsHexByte(runs[i]);
    }
    assert ComponentHexes(runs) == HexBytes(runs);
  }

  /** `#rrggbb` read back as its three components. */
  function ParseHexColor(hex: string): (rgb: (nat, nat, nat))
    requires |hex| == 7
  {
    (ParseHexByte(hex[1..3]), ParseHexByte(hex[3..5]), ParseHexByte(hex[5..7]))
  }

  /** The encoding loses nothing: the three components are read back from the hex colour. */
  lemma RgbRoundTrip(dr: string, dg: string, db: string)
    requires IsComponent(dr) && IsComponent(dg) && IsComponent(db)
    ensures var r := WindowBackground(Some(RgbText(dr, dg, db)));
            r.Some? && |r.value| == 7
            && ParseHexColor(r.value) == (DecimalValue(dr), DecimalValue(dg), DecimalValue(db))
  {
    RgbBecomesHex(dr, dg, db);
    HexColourRoundTrip(DecimalValue(dr), DecimalValue(dg), DecimalValue(db));
  }

  /** `#rrggbb` built from three bytes reads back as those bytes. */
  lemma HexColourRoundTrip(r: nat, g: nat, b: nat)
    requires r < 256 && g < 256 && b < 256
    ensures |"#" + HexByte(r) + HexByte(g) + HexByte(b)| == 7
    ensures ParseHexColor("#" + HexByte(r) + HexByte(g) + HexByte(b)) == (r, g, b)
  {
    var hex := "#" + HexByte(r) + HexByte(g) + HexByte(b);
    assert hex[1..3] == HexByte(r) && hex[3..5] == HexByte(g) && hex[5..7] == HexByte(b);
    HexByteRoundTrip(r);
    HexByteRoundTrip(g);
    HexByteRoundTrip(b);
  }

  /** The window colour depends on the theme only through the colour it yields. */
  lemma SameColourSameWindow(x: Option<string>, y: Option<string>)
    requires ThemeBackground(x) == ThemeBackground(y)
    ensures WindowBackground(x) == WindowBackground(y)
  {
  }

  lemma DefaultComponents()
    ensures IsComponent("3") && DecimalValue("3") == 3
    ensures IsComponent("41") && DecimalValue("41") == 41
    ensures IsComponent("62") && DecimalValue("62") == 62
  {
    assert "41"[..1] == "4";
    assert "62"[..1] == "6";
  }

  /** Without a theme the window is `#03293e`, the default `rgb(3, 41, 62)` in hex. */
  lemma DefaultIsDarkBlue()
    ensures WindowBackground(None) == Some("#03293e")
    ensures WindowBackground(Some("")) == Some("#03293e")
  {
    var c := RgbText("3", "41", "62");
    assert DefaultBackground == c;
    DefaultComponents();
    RgbBecomesHex("3", "41", "62");
    SameColourSameWindow(None, Some(c));
    SameColourSameWindow(Some(""), Some(c));
    DefaultHexDigits();
  }

  lemma DefaultHexDigits()
    ensures "#" + HexByte(3) + HexByte(41) + HexByte(62) == "#03293e"
  {
    assert HexByte(3) == "03" && HexByte(41) == "29" && HexByte(62) == "3e";
  }

  /** Hex colours are kept as they are. */
  lemma HexColourKept(c: string)
    requires c != [] && c[0] == '#'
    ensures WindowBackground(Some(c)) == Some(c)
  {
  }
}
