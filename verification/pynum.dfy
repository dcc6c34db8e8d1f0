/**
 * Python's conversions of JSON scalars to integers, as the collectors and
 * report generators use them: `int(...)` on numbers and text, the
 * `int(v or 0)` idiom, and the two lenient parsers `parse_int` and
 * `parse_volume` that turn every failure into a default.
 */
module PyNum {
  import opened Wrappers
  import opened Text
  import Seqs

  /**
   * A JSON value as `json.load` hands it over. `Composite` is a list or an
   * object, known only by its `str()` rendering.
   */
  datatype Scalar =
    | Null
    | Bool(b: bool)
    | Int(i: int)
    | Float(f: real)
    | Str(s: string)
    | Composite(repr: string)

  /** Python truthiness. */
  predicate Truthy(v: Scalar) {
    match v
    case Null => false
    case Bool(b) => b
    case Int(i) => i != 0
    case Float(f) => f != 0.0
    case Str(s) => s != ""
    case Composite(repr) => repr != "[]" && repr != "{}"
  }

  /** `int(x)` of a float: truncation toward zero. */
  function Trunc(x: real): (r: int)
    ensures x >= 0.0 ==> r >= 0 && r as real <= x < r as real + 1.0
    ensures x < 0.0 ==> r <= 0 && r as real - 1.0 < x <= r as real
  {
    if x >= 0.0 then x.Floor else -((-x).Floor)
  }

  /**
   * The digits part Python's `int()` accepts in base 10: decimal digits,
   * single underscores allowed between two digits.
   */
  predicate IsIntBody(b: string) {
    && |b| > 0 && IsDigit(b[0]) && IsDigit(b[|b| - 1])
    && (forall i :: 0 <= i < |b| ==> IsDigit(b[i]) || b[i] == '_')
    && (forall i :: 0 <= i < |b| - 1 ==> !DoubleUnderscore(b, i))
  }

  predicate DoubleUnderscore(b: string, i: int)
    requires 0 <= i < |b| - 1
  {
    b[i] == '_' && b[i + 1] == '_'
  }

  /** The digits of a body, underscores skipped. */
  function DigitCount(b: string): nat {
    if |b| == 0 then 0 else DigitCount(b[..|b| - 1]) + (if b[|b| - 1] == '_' then 0 else 1)
  }

  /** The value of the digits of a body, underscores skipped. */
  function BodyValue(b: string): nat
    requires forall i :: 0 <= i < |b| ==> IsDigit(b[i]) || b[i] == '_'
  {
    if |b| == 0 then 0
    else if b[|b| - 1] == '_' then BodyValue(b[..|b| - 1])
    else BodyValue(b[..|b| - 1]) * 10 + DigitValue(b[|b| - 1])
  }

  /** The unsigned digit body, or `None` when it is not one or has too many digits. */
  function BodyRead(b: string): Option<int> {
    if IsIntBody(b) && DigitCount(b) <= MaxStrDigits then Some(BodyValue(b)) else None
  }

  /** The sign text may start with, and the rest of it. */
  function SplitSign(t: string): (r: (bool, string)) {
    if |t| > 0 && (t[0] == '-' || t[0] == '+') then (t[0] == '-', t[1..]) else (false, t)
  }

  /** Text already stripped of whitespace: one optional sign, then the body. */
  function SignedRead(t: string): Option<int> {
    var (negative, body) := SplitSign(t);
    match BodyRead(body)
    case Some(m) => Some(if negative then -m else m)
    case None => None
  }

  // ---------------------------------------------------------------------
  // `int(s)` on text, as CPython 3.12 reads it: the text is first made
  // ASCII (other whitespace becomes a space, other decimal digits their
  // ASCII digit), then the ASCII whitespace around the number is skipped.

  /** The digit value of `c` when it lies in the run of ten digits starting at `zero`. */
  function DigitIn(c: int, zero: int): (r: Option<nat>)
    ensures r.Some? <==> zero <= c < zero + 10
    ensures r.Some? ==> r.value == c - zero
  {
    if zero <= c < zero + 10 then Some(c - zero) else None
  }

  /**
   * The value of `c` as a decimal digit (general category Nd, Unicode 15.0)
   * above ASCII. The runs of ten digits are listed in increasing order, so
   * the first run that does not end below `c` is the only one `c` can lie in.
   */
  function DecimalOf(c: int): (r: Option<nat>)
    ensures r.Some? ==> r.value < 10
  {
    if c < 0x0660 + 10 then DigitIn(c, 0x0660)
    else if c < 0x06F0 + 10 then DigitIn(c, 0x06F0)
    else if c < 0x07C0 + 10 then DigitIn(c, 0x07C0)
    else if c < 0x0966 + 10 then DigitIn(c, 0x0966)
    else if c < 0x09E6 + 10 then DigitIn(c, 0x09E6)
    else if c < 0x0A66 + 10 then DigitIn(c, 0x0A66)
    else if c < 0x0AE6 + 10 then DigitIn(c, 0x0AE6)
    else if c < 0x0B66 + 10 then DigitIn(c, 0x0B66)
    else if c < 0x0BE6 + 10 then DigitIn(c, 0x0BE6)
    else if c < 0x0C66 + 10 then DigitIn(c, 0x0C66)
    else if c < 0x0CE6 + 10 then DigitIn(c, 0x0CE6)
    else if c < 0x0D66 + 10 then DigitIn(c, 0x0D66)
    else if c < 0x0DE6 + 10 then DigitIn(c, 0x0DE6)
    else if c < 0x0E50 + 10 then DigitIn(c, 0x0E50)
    else if c < 0x0ED0 + 10 then DigitIn(c, 0x0ED0)
    else if c < 0x0F20 + 10 then DigitIn(c, 0x0F20)
    else if c < 0x1040 + 10 then DigitIn(c, 0x1040)
    else if c < 0x1090 + 10 then DigitIn(c, 0x1090)
    else if c < 0x17E0 + 10 then DigitIn(c, 0x17E0)
    else if c < 0x1810 + 10 then DigitIn(c, 0x1810)
    else if c < 0x1946 + 10 then DigitIn(c, 0x1946)
    else if c < 0x19D0 + 10 then DigitIn(c, 0x19D0)
    else if c < 0x1A80 + 10 then DigitIn(c, 0x1A80)
    else if c < 0x1A90 + 10 then DigitIn(c, 0x1A90)
    else if c < 0x1B50 + 10 then DigitIn(c, 0x1B50)
    else if c < 0x1BB0 + 10 then DigitIn(c, 0x1BB0)
    else if c < 0x1C40 + 10 then DigitIn(c, 0x1C40)
    else if c < 0x1C50 + 10 then DigitIn(c, 0x1C50)
    else if c < 0xA620 + 10 then DigitIn(c, 0xA620)
    else if c < 0xA8D0 + 10 then DigitIn(c, 0xA8D0)
    else if c < 0xA900 + 10 then DigitIn(c, 0xA900)
    else if c < 0xA9D0 + 10 then DigitIn(c, 0xA9D0)
    else if c < 0xA9F0 + 10 then DigitIn(c, 0xA9F0)
    else if c < 0xAA50 + 10 then DigitIn(c, 0xAA50)
    else if c < 0xABF0 + 10 then DigitIn(c, 0xABF0)
    else if c < 0xFF10 + 10 then DigitIn(c, 0xFF10)
    else if c < 0x104A0 + 10 then DigitIn(c, 0x104A0)
    else if c < 0x10D30 + 10 then DigitIn(c, 0x10D30)
    else if c < 0x11066 + 10 then DigitIn(c, 0x11066)
    else if c < 0x110F0 + 10 then DigitIn(c, 0x110F0)
    else if c < 0x11136 + 10 then DigitIn(c, 0x11136)
    else if c < 0x111D0 + 10 then DigitIn(c, 0x111D0)
    else if c < 0x112F0 + 10 then DigitIn(c, 0x112F0)
    else if c < 0x11450 + 10 then DigitIn(c, 0x11450)
    else if c < 0x114D0 + 10 then DigitIn(c, 0x114D0)
    else if c < 0x11650 + 10 then DigitIn(c, 0x11650)
    else if c < 0x116C0 + 10 then DigitIn(c, 0x116C0)
    else if c < 0x11730 + 10 then DigitIn(c, 0x11730)
    else if c < 0x118E0 + 10 then DigitIn(c, 0x118E0)
    else if c < 0x11950 + 10 then DigitIn(c, 0x11950)
    else if c < 0x11C50 + 10 then DigitIn(c, 0x11C50)
    else if c < 0x11D50 + 10 then DigitIn(c, 0x11D50)
    else if c < 0x11DA0 + 10 then DigitIn(c, 0x11DA0)
    else if c < 0x11F50 + 10 then DigitIn(c, 0x11F50)
    else if c < 0x16A60 + 10 then DigitIn(c, 0x16A60)
    else if c < 0x16AC0 + 10 then DigitIn(c, 0x16AC0)
    else if c < 0x16B50 + 10 then DigitIn(c, 0x16B50)
    else if c < 0x1D7CE + 10 then DigitIn(c, 0x1D7CE)
    else if c < 0x1D7D8 + 10 then DigitIn(c, 0x1D7D8)
    else if c < 0x1D7E2 + 10 then DigitIn(c, 0x1D7E2)
    else if c < 0x1D7EC + 10 then DigitIn(c, 0x1D7EC)
    else if c < 0x1D7F6 + 10 then DigitIn(c, 0x1D7F6)
    else if c < 0x1E140 + 10 then DigitIn(c, 0x1E140)
    else if c < 0x1E2F0 + 10 then DigitIn(c, 0x1E2F0)
    else if c < 0x1E4F0 + 10 then DigitIn(c, 0x1E4F0)
    else if c < 0x1E950 + 10 then DigitIn(c, 0x1E950)
    else if c < 0x1FBF0 + 10 then DigitIn(c, 0x1FBF0)
    else None
  }

  /**
   * The ASCII character `int()` reads in place of `c`: characters below 127
   * pass unchanged, whitespace becomes a space, a decimal digit its ASCII
   * digit, and anything else a '?' that no number contains.
   */
  function IntChar(c: char): (r: char)
    ensures c as int < 127 ==> r == c
    ensures c as int >= 127 ==> r == ' ' || r == '?' || IsDigit(r)
  {
    if c as int < 127 then c
    else if IsSpace(c) then ' '
    else match DecimalOf(c as int)
      case Some(d) => DigitChar(d)
      case None => '?'
  }

  function IntText(s: string): (r: string)
    ensures |r| == |s|
    ensures forall i :: 0 <= i < |s| ==> r[i] == IntChar(s[i])
  {
    seq(|s|, i requires 0 <= i < |s| => IntChar(s[i]))
  }

  /** The whitespace `int()` skips around the number once the text is ASCII. */
  predicate IsAsciiSpace(c: char) {
    c == ' ' || '\t' <= c <= '\r'
  }

  predicate AllAsciiSpace(s: string) {
    forall i :: 0 <= i < |s| ==> IsAsciiSpace(s[i])
  }

  function AsciiStripLeft(s: string): (r: string)
    ensures |r| == 0 || !IsAsciiSpace(r[0])
  {
    if |s| > 0 && IsAsciiSpace(s[0]) then AsciiStripLeft(s[1..]) else s
  }

  function AsciiStripRight(s: string): (r: string)
    ensures |r| == 0 || !IsAsciiSpace(r[|r| - 1])
  {
    if |s| > 0 && IsAsciiSpace(s[|s| - 1]) then AsciiStripRight(s[..|s| - 1]) else s
  }

  function AsciiStrip(s: string): string {
    AsciiStripRight(AsciiStripLeft(s))
  }

  /** CPython's default limit on the number of digits `int()` converts from text. */
  const MaxStrDigits: nat := 4300

  /**
   * `int(s)` for a `str`: one optional sign and a digit body, with
   * whitespace around them, and at most `MaxStrDigits` digits. `None` stands
   * for the `ValueError`.
   */
  function PyIntOfStr(s: string): Option<int> {
    SignedRead(AsciiStrip(IntText(s)))
  }

  /** `int(v)`; `None` stands for the `ValueError` or `TypeError` it raises. */
  function PyInt(v: Scalar): (r: Option<int>)
    ensures v.Int? ==> r == Some(v.i)
    ensures v.Null? ==> r.None?
  {
    match v
    case Null => None
    case Bool(b) => Some(if b then 1 else 0)
    case Int(i) => Some(i)
    case Float(f) => Some(Trunc(f))
    case Str(s) => PyIntOfStr(s)
    case Composite(_) => None
  }

  /** `int(v or 0)`: a falsy value counts as 0, anything else goes through `int`. */
  function IntOrZero(v: Scalar): (r: Option<int>)
    ensures !Truthy(v) ==> r == Some(0)
    ensures Truthy(v) ==> r == PyInt(v)
  {
    if Truthy(v) then PyInt(v) else Some(0)
  }

  /** `str(v)` for the values the lenient parsers hand to `int` as text. */
  function TextOf(v: Scalar): string
    requires v.Str? || v.Composite?
  {
    if v.Str? then v.s else v.repr
  }

  /**
   * `parse_int` of the sales report: `None` is 0, numbers are truncated,
   * anything else is read as text with thousands separators removed, and 0
   * when that fails.
   */
  function ParseInt(v: Scalar): (r: int)
    ensures v.Null? ==> r == 0
    ensures v.Int? ==> r == v.i
    ensures v.Float? ==> r == Trunc(v.f)
    ensures v.Bool? ==> r == (if v.b then 1 else 0)
    ensures (v.Str? || v.Composite?) && PyIntOfStr(Replace(TextOf(v), ",", "")).Some? ==>
      r == PyIntOfStr(Replace(TextOf(v), ",", "")).value
    ensures (v.Str? || v.Composite?) && PyIntOfStr(Replace(TextOf(v), ",", "")).None? ==> r == 0
  {
    match v
    case Null => 0
    case Bool(b) => if b then 1 else 0
    case Int(i) => i
    case Float(f) => Trunc(f)
    case _ => PyIntOfStr(Replace(TextOf(v), ",", "")).GetOr(0)
  }

  /**
   * `parse_volume` of the search-ad collector: like `ParseInt`, except that
   * text holding '<' (the API's "< 10") reads as 5.
   */
  function ParseVolume(v: Scalar): (r: int)
    ensures v.Null? ==> r == 0
    ensures v.Int? ==> r == v.i
    ensures v.Float? ==> r == Trunc(v.f)
    ensures (v.Str? || v.Composite?) && '<' in TextOf(v) ==> r == 5
    ensures (v.Str? || v.Composite?) && !Contains(Strip(TextOf(v)), "<") ==> r == PyIntOfStr(Replace(Strip(TextOf(v)), ",", "")).GetOr(0)
  {
    match v
    case Null => 0
    case Bool(b) => if b then 1 else 0
    case Int(i) => i
    case Float(f) => Trunc(f)
    case _ =>
      LessThanKept(TextOf(v));
      var s := Strip(TextOf(v));
      if Contains(s, "<") then 5
      else
        PyIntOfStr(Replace(s, ",", "")).GetOr(0)
  }

  lemma LessThanKept(t: string)
    ensures '<' in t ==> Contains(Strip(t), "<")
  {
    if '<' in t {
      StripKeeps(t, '<');
      ContainsChar(Strip(t), '<');
    }
  }

  // ---------------------------------------------------------------------
  // How `int()` sees text

  /** Text below code point 127 reaches the number parser unchanged. */
  lemma IntTextAscii(s: string)
    requires forall i :: 0 <= i < |s| ==> s[i] as int < 127
    ensures IntText(s) == s
  {}

  lemma IntTextConcat(a: string, b: string)
    ensures IntText(a + b) == IntText(a) + IntText(b)
  {
    assert forall i :: 0 <= i < |a + b| ==> IntText(a + b)[i] == (IntText(a) + IntText(b))[i];
  }

  lemma {:induction false} StripLeftPadding(u: string, x: string)
    requires AllAsciiSpace(u)
    requires |x| == 0 || !IsAsciiSpace(x[0])
    ensures AsciiStripLeft(u + x) == x
    decreases |u|
  {
    if |u| > 0 {
      assert (u + x)[1..] == u[1..] + x;
      StripLeftPadding(u[1..], x);
    } else {
      assert u + x == x;
    }
  }

  lemma {:induction false} StripRightPadding(x: string, v: string)
    requires AllAsciiSpace(v)
    requires |x| == 0 || !IsAsciiSpace(x[|x| - 1])
    ensures AsciiStripRight(x + v) == x
    decreases |v|
  {
    if |v| > 0 {
      assert (x + v)[..|x + v| - 1] == x + v[..|v| - 1];
      StripRightPadding(x, v[..|v| - 1]);
    } else {
      assert x + v == x;
    }
  }

  /** Stripping finds the one core that has no whitespace at either end. */
  lemma AsciiStripPadded(u: string, x: string, v: string)
    requires AllAsciiSpace(u) && AllAsciiSpace(v)
    requires |x| == 0 || (!IsAsciiSpace(x[0]) && !IsAsciiSpace(x[|x| - 1]))
    ensures AsciiStrip(u + x + v) == x
  {
    if |x| == 0 {
      assert u + x + v == (u + v) + "";
      StripLeftPadding(u + v, "");
    } else {
      assert u + x + v == u + (x + v);
      StripLeftPadding(u, x + v);
      StripRightPadding(x, v);
    }
  }

  lemma {:induction false} StripLeftSlice(s: string) returns (p: nat)
    ensures p <= |s| && AsciiStripLeft(s) == s[p..] && AllAsciiSpace(s[..p])
    decreases |s|
  {
    if |s| > 0 && IsAsciiSpace(s[0]) {
      var p' := StripLeftSlice(s[1..]);
      p := p' + 1;
      assert s[1..][p'..] == s[p..];
      assert s[..p] == [s[0]] + s[1..][..p'];
    } else {
      p := 0;
    }
  }

  lemma {:induction false} StripRightSlice(s: string) returns (q: nat)
    ensures q <= |s| && AsciiStripRight(s) == s[..q] && AllAsciiSpace(s[q..])
    decreases |s|
  {
    if |s| > 0 && IsAsciiSpace(s[|s| - 1]) {
      q := StripRightSlice(s[..|s| - 1]);
      assert s[..|s| - 1][..q] == s[..q];
      assert s[q..] == s[..|s| - 1][q..] + [s[|s| - 1]];
    } else {
      q := |s|;
    }
  }

  /** Stripping keeps one slice of the text, with only whitespace around it. */
  lemma AsciiStripSlice(s: string) returns (p: nat, q: nat)
    ensures p <= q <= |s| && AsciiStrip(s) == s[p..q]
    ensures AllAsciiSpace(s[..p]) && AllAsciiSpace(s[q..])
    ensures p == q || (!IsAsciiSpace(s[p]) && !IsAsciiSpace(s[q - 1]))
    ensures forall j :: 0 <= j < p ==> IsAsciiSpace(s[j])
    ensures forall j :: q <= j < |s| ==> IsAsciiSpace(s[j])
  {
    p := StripLeftSlice(s);
    var l := s[p..];
    var q' := StripRightSlice(l);
    q := p + q';
    assert l[..q'] == s[p..q];
    assert s[q..] == l[q'..];
    forall j | 0 <= j < p ensures IsAsciiSpace(s[j]) {
      assert s[..p][j] == s[j];
    }
    forall j | q <= j < |s| ensures IsAsciiSpace(s[j]) {
      assert s[q..][j - q] == s[j];
    }
  }

  /** Text with no whitespace at either end is stripped to itself. */
  lemma AsciiStripBare(x: string)
    requires |x| > 0 && !IsAsciiSpace(x[0]) && !IsAsciiSpace(x[|x| - 1])
    ensures AsciiStrip(x) == x
  {
    assert AsciiStripLeft(x) == x;
  }

  /** Extra whitespace around the text does not change what stripping keeps. */
  lemma AsciiStripIgnoresPadding(u: string, m: string, v: string)
    requires AllAsciiSpace(u) && AllAsciiSpace(v)
    ensures AsciiStrip(u + m + v) == AsciiStrip(m)
  {
    var p, q := AsciiStripSlice(m);
    assert u + m + v == (u + m[..p]) + m[p..q] + (m[q..] + v);
    AsciiStripPadded(u + m[..p], m[p..q], m[q..] + v);
  }

  /** The characters that can occur in text `int()` accepts, once it is ASCII. */
  predicate IntSyntax(c: char) {
    IsAsciiSpace(c) || IsDigit(c) || c == '+' || c == '-' || c == '_'
  }

  /** A character outside the number syntax anywhere in the text makes `int()` refuse it. */
  lemma ForeignRejected(s: string, i: int)
    requires 0 <= i < |s| && !IntSyntax(IntChar(s[i]))
    ensures PyIntOfStr(s) == None
  {
    var t := IntText(s);
    var c := t[i];
    var p, q := AsciiStripSlice(t);
    assert !IsAsciiSpace(c);
    var st := t[p..q];
    assert st[i - p] == c;
    if |st| > 0 && (st[0] == '-' || st[0] == '+') {
      assert st[1..][i - p - 1] == c;
    }
  }

  /** Text with a thousands separator is not an integer to `int()`. */
  lemma CommaRejected(s: string)
    requires ',' in s
    ensures PyIntOfStr(s) == None
  {
    var i :| 0 <= i < |s| && s[i] == ',';
    ForeignRejected(s, i);
  }

  /** The empty text is not an integer to `int()`. */
  lemma EmptyRejected()
    ensures PyIntOfStr("") == None
  {
    assert AsciiStrip(IntText("")) == "";
  }

  /**
   * The ASCII separators \x1c..\x1f are whitespace to `str.strip()` but not to
   * `int()`: text starting with one is never a number.
   */
  lemma SeparatorRejected(c: char, s: string)
    requires '\U{001c}' <= c <= '\U{001f}'
    ensures PyIntOfStr([c] + s) == None
  {
    ForeignRejected([c] + s, 0);
  }

  /** `str.isspace()` whitespace that `int()` also skips: all of it except \x1c..\x1f. */
  predicate IntSkips(c: char) {
    IsSpace(c) && !('\U{001c}' <= c <= '\U{001f}')
  }

  lemma SkippedBecomeSpaces(w: string)
    requires forall i :: 0 <= i < |w| ==> IntSkips(w[i])
    ensures AllAsciiSpace(IntText(w))
    ensures ',' !in w
  {
    assert forall i :: 0 <= i < |w| ==> w[i] != ',' by {
      forall i | 0 <= i < |w| ensures w[i] != ',' {
        assert IntSkips(w[i]);
      }
    }
  }

  /** Whitespace of any kind but \x1c..\x1f around the text does not change what `int()` reads. */
  lemma IntIgnoresPadding(u: string, m: string, v: string)
    requires forall i :: 0 <= i < |u| ==> IntSkips(u[i])
    requires forall i :: 0 <= i < |v| ==> IntSkips(v[i])
    ensures PyIntOfStr(u + m + v) == PyIntOfStr(m)
  {
    SkippedBecomeSpaces(u);
    SkippedBecomeSpaces(v);
    IntTextConcat(u + m, v);
    IntTextConcat(u, m);
    AsciiStripIgnoresPadding(IntText(u), IntText(m), IntText(v));
  }

  // ---------------------------------------------------------------------
  // Decimal digits beyond ASCII

  /** A decimal digit beyond ASCII reads as its digit. */
  lemma UnicodeDigit(c: char)
    requires DecimalOf(c as int).Some?
    ensures IntChar(c) == DigitChar(DecimalOf(c as int).value)
  {
    assert !IsSpace(c);
  }

  /**
   * A decimal digit of any script, ASCII included: what `\d` matches in a
   * `str` pattern and `str.isdecimal()` accepts.
   */
  predicate IsDecimal(c: char) {
    IsDigit(c) || DecimalOf(c as int).Some?
  }

  predicate AllDecimal(s: string) {
    forall i :: 0 <= i < |s| ==> IsDecimal(s[i])
  }

  /** The digit value of a decimal digit of any script. */
  function DecimalValue(c: char): (r: nat)
    requires IsDecimal(c)
    ensures r < 10
  {
    if IsDigit(c) then DigitValue(c) else DecimalOf(c as int).value
  }

  /** `int()` reads a decimal digit of any script as the ASCII digit of its value. */
  lemma DecimalValueRead(c: char)
    requires IsDecimal(c)
    ensures IntChar(c) == DigitChar(DecimalValue(c))
  {
    if !IsDigit(c) {
      UnicodeDigit(c);
    }
  }

  /** The number decimal digits of any script spell. */
  function DecimalsValue(s: string): nat
    requires AllDecimal(s)
  {
    if |s| == 0 then 0 else DecimalsValue(s[..|s| - 1]) * 10 + DecimalValue(s[|s| - 1])
  }

  /** `int()` turns decimal digits of any script into the ASCII digits of the same number. */
  lemma {:induction false} DecimalsAscii(s: string)
    requires AllDecimal(s)
    ensures AllDigits(IntText(s)) && DigitsValue(IntText(s)) == DecimalsValue(s)
  {
    forall i | 0 <= i < |s| ensures IsDigit(IntText(s)[i]) {
      DecimalValueRead(s[i]);
    }
    if |s| > 0 {
      var n := |s| - 1;
      DecimalsAscii(s[..n]);
      assert IntText(s)[..n] == IntText(s[..n]);
      DecimalValueRead(s[n]);
    }
  }

  /** Decimal digits of any script read as the number they spell (up to `MaxStrDigits` of them). */
  lemma DecimalsRead(s: string)
    requires AllDecimal(s) && 0 < |s| <= MaxStrDigits
    ensures PyIntOfStr(s) == Some(DecimalsValue(s) as int)
  {
    UnicodeDigitsRead(s);
    DecimalsAscii(s);
  }

  /** On ASCII digits, `DecimalsValue` is the plain decimal value. */
  lemma {:induction false} DecimalsOfAscii(s: string)
    requires AllDigits(s)
    ensures AllDecimal(s) && DecimalsValue(s) == DigitsValue(s)
  {
    if |s| > 0 {
      DecimalsOfAscii(s[..|s| - 1]);
    }
  }

  /**
   * A character `str.isdigit()` accepts beyond the decimal digits: the
   * characters of Unicode 15.0 whose Numeric_Type is Digit (superscript
   * and subscript digits, circled and parenthesised digits, and the like).
   */
  predicate IsOtherDigit(c: int) {
    || 0x00B2 <= c <= 0x00B3 || c == 0x00B9 || 0x1369 <= c <= 0x1371 || c == 0x19DA
    || c == 0x2070 || 0x2074 <= c <= 0x2079 || 0x2080 <= c <= 0x2089 || 0x2460 <= c <= 0x2468
    || 0x2474 <= c <= 0x247C || 0x2488 <= c <= 0x2490 || c == 0x24EA || 0x24F5 <= c <= 0x24FD
    || c == 0x24FF || 0x2776 <= c <= 0x277E || 0x2780 <= c <= 0x2788 || 0x278A <= c <= 0x2792
    || 0x10A40 <= c <= 0x10A43 || 0x10E60 <= c <= 0x10E68 || 0x11052 <= c <= 0x1105A
    || 0x1F100 <= c <= 0x1F10A
  }

  /** `str.isdigit()` of one character. */
  predicate IsPyDigit(c: char) {
    IsDecimal(c) || IsOtherDigit(c as int)
  }

  /** `str.isdigit()`: at least one character, and every one a digit. */
  predicate IsDigitText(s: string) {
    |s| > 0 && forall i :: 0 <= i < |s| ==> IsPyDigit(s[i])
  }

  /**
   * `str.isdigit()` accepts full-width digits, and also superscript two,
   * which is no decimal digit and which `int()` refuses.
   */
  lemma IsDigitBeyondAscii()
    ensures IsDigitText("\U{FF11}\U{FF12}\U{FF13}\U{FF14}\U{FF15}")
    ensures IsDigitText("1234\U{00B2}") && !IsDecimal('\U{00B2}') && PyIntOfStr("1234\U{00B2}") == None
  {
    ForeignRejected("1234\U{00B2}", 4);
  }

  /** Text written in decimal digits, of one script or several, reads as the number they spell. */
  lemma UnicodeDigitsRead(s: string)
    requires forall i :: 0 <= i < |s| ==> IsDecimal(s[i])
    requires 0 < |s| <= MaxStrDigits
    ensures AllDigits(IntText(s))
    ensures forall i :: 0 <= i < |s| && !IsDigit(s[i]) ==> IntText(s)[i] == DigitChar(DecimalOf(s[i] as int).value)
    ensures forall i :: 0 <= i < |s| && IsDigit(s[i]) ==> IntText(s)[i] == s[i]
    ensures PyIntOfStr(s) == Some(DigitsValue(IntText(s)) as int)
  {
    forall i | 0 <= i < |s| && !IsDigit(s[i]) ensures IntText(s)[i] == DigitChar(DecimalOf(s[i] as int).value) {
      UnicodeDigit(s[i]);
    }
    AsciiDigitsRead(IntText(s));
  }

  /** Full-width digits, as East Asian input methods type them, read as numbers. */
  lemma FullWidthRead()
    ensures PyIntOfStr("\U{FF11}\U{FF12}") == Some(12)
  {
    var s := "\U{FF11}\U{FF12}";
    assert IsDecimal(s[0]) && IsDecimal(s[1]);
    UnicodeDigitsRead(s);
    assert IntText(s) == "12";
  }

  // ---------------------------------------------------------------------
  // Round trips with the decimal renderings

  lemma DigitNotSpace(c: char)
    requires IsDigit(c)
    ensures !IsSpace(c)
  {}

  lemma {:induction false} DigitsBodyValue(b: string)
    requires AllDigits(b)
    ensures BodyValue(b) == DigitsValue(b) && DigitCount(b) == |b|
  {
    if |b| > 0 {
      DigitsBodyValue(b[..|b| - 1]);
    }
  }

  lemma DigitsBody(b: string)
    requires |b| > 0 && AllDigits(b)
    ensures IsIntBody(b) && BodyValue(b) == DigitsValue(b) && DigitCount(b) == |b|
  {
    forall i | 0 <= i < |b| - 1 ensures !DoubleUnderscore(b, i) {
      assert IsDigit(b[i]);
    }
    DigitsBodyValue(b);
  }

  lemma BodyReadDigits(b: string)
    requires 0 < |b| <= MaxStrDigits && AllDigits(b)
    ensures BodyRead(b) == Some(DigitsValue(b) as int)
  {
    DigitsBody(b);
  }

  /** A plain ASCII digit string, once made ASCII, is read as its value. */
  lemma AsciiDigitsRead(t: string)
    requires 0 < |t| <= MaxStrDigits && AllDigits(t)
    ensures AsciiStrip(t) == t
    ensures SignedRead(t) == Some(DigitsValue(t) as int)
  {
    AsciiStripBare(t);
    BodyReadDigits(t);
  }

  /** A plain digit string is read back as its value. */
  lemma DigitsRead(s: string)
    requires 0 < |s| <= MaxStrDigits && AllDigits(s)
    ensures PyIntOfStr(s) == Some(DigitsValue(s) as int)
  {
    IntTextAscii(s);
    AsciiDigitsRead(s);
  }

  /** `int()` refuses a digit string longer than `MaxStrDigits`. */
  lemma TooManyDigits(s: string)
    requires AllDigits(s) && |s| > MaxStrDigits
    ensures PyIntOfStr(s) == None
  {
    IntTextAscii(s);
    AsciiStripBare(s);
    DigitsBody(s);
  }

  /** Plain ASCII text without outer whitespace goes straight to the sign-and-body reading. */
  lemma BareAsciiRead(s: string)
    requires |s| > 0 && !IsAsciiSpace(s[0]) && !IsAsciiSpace(s[|s| - 1])
    requires forall i :: 0 <= i < |s| ==> s[i] as int < 127
    ensures PyIntOfStr(s) == SignedRead(s)
  {
    IntTextAscii(s);
    AsciiStripBare(s);
  }

  /** A minus sign before a digit string negates its value. */
  lemma NegativeDigitsRead(body: string)
    requires 0 < |body| <= MaxStrDigits && AllDigits(body)
    ensures PyIntOfStr("-" + body) == Some(-(DigitsValue(body) as int))
  {
    var s := "-" + body;
    assert s[|s| - 1] == body[|body| - 1];
    BareAsciiRead(s);
    MinusRead(body);
  }

  lemma MinusRead(body: string)
    requires 0 < |body| <= MaxStrDigits && AllDigits(body)
    ensures SignedRead("-" + body) == Some(-(DigitsValue(body) as int))
  {
    var t := "-" + body;
    assert t[1..] == body;
    assert SplitSign(t) == (true, body);
    BodyReadDigits(body);
  }

  /** `int(str(i)) == i` for every integer of at most `MaxStrDigits` digits. */
  lemma PyIntOfStrRoundTrip(i: int)
    requires |NatToString(if i >= 0 then i else -i)| <= MaxStrDigits
    ensures PyIntOfStr(IntToString(i)) == Some(i)
  {
    if i >= 0 {
      NatRoundTrip(i);
    } else {
      NegativeRoundTrip(i);
    }
  }

  lemma NatRoundTrip(n: nat)
    requires |NatToString(n)| <= MaxStrDigits
    ensures PyIntOfStr(NatToString(n)) == Some(n)
  {
    DigitsRead(NatToString(n));
  }

  lemma NegativeRoundTrip(i: int)
    requires i < 0 && |NatToString(-i)| <= MaxStrDigits
    ensures PyIntOfStr("-" + NatToString(-i)) == Some(i)
  {
    NegativeDigitsRead(NatToString(-i));
  }

  /** Python `f"{n:,}"`: the decimal rendering with a comma every three digits. */
  function Grouped(n: nat): (r: string)
    ensures |r| > 0
  {
    if n < 1000 then NatToString(n)
    else Grouped(n / 1000) + "," + Pad(n % 1000, 3)
  }

  lemma {:induction false} GroupedDigits(n: nat)
    ensures AllDigits(Replace(Grouped(n), ",", ""))
    ensures DigitsValue(Replace(Grouped(n), ",", "")) == n
    ensures |Replace(Grouped(n), ",", "")| == |NatToString(n)|
  {
    if n < 1000 {
      ReplaceCharAbsent(NatToString(n), ',', "");
    } else {
      GroupedDigits(n / 1000);
      var tail := Pad(n % 1000, 3);
      assert Pow10(3) == 1000;
      NatToStringLength(n % 1000, 3);
      JoinGroups(Grouped(n / 1000), tail);
      GroupedLength(n);
    }
  }

  /** Removing the separators leaves as many digits as the plain rendering has. */
  lemma GroupedLength(n: nat)
    requires n >= 1000
    ensures |NatToString(n)| == |NatToString(n / 1000)| + 3
  {
    var q := n / 1000;
    var a := NatToString(n / 10);
    var b := NatToString(n / 100);
    assert n / 10 / 10 == n / 100;
    assert n / 100 / 10 == q;
  }

  /** Dropping the commas from `head + "," + tail` appends the three digits of `tail` to those of `head`. */
  lemma JoinGroups(head: string, tail: string)
    requires |tail| == 3 && AllDigits(tail)
    requires AllDigits(Replace(head, ",", ""))
    ensures Replace(head + "," + tail, ",", "") == Replace(head, ",", "") + tail
    ensures AllDigits(Replace(head + "," + tail, ",", ""))
    ensures DigitsValue(Replace(head + "," + tail, ",", "")) == DigitsValue(Replace(head, ",", "")) * 1000 + DigitsValue(tail)
  {
    var digits := Replace(head, ",", "");
    DropJoinComma(head, tail);
    DigitsValueConcat(digits, tail);
    assert Pow10(3) == 1000;
  }

  lemma DropJoinComma(head: string, tail: string)
    requires AllDigits(tail)
    ensures Replace(head + "," + tail, ",", "") == Replace(head, ",", "") + tail
  {
    assert ',' !in tail by {
      forall i | 0 <= i < |tail| ensures tail[i] != ',' {
        assert IsDigit(tail[i]);
      }
    }
    DropJoinChar(head, tail, ',');
  }

  lemma DropJoinChar(head: string, tail: string, c: char)
    requires c !in tail
    ensures Replace(head + [c] + tail, [c], "") == Replace(head, [c], "") + tail
  {
    var h := Replace(head, [c], "");
    assert Replace(head + [c], [c], "") == h by {
      ReplaceCharConcat(head, [c], c, "");
      assert Replace([c], [c], "") == "";
    }
    assert Replace(tail, [c], "") == tail by {
      ReplaceCharAbsent(tail, c, "");
    }
    ReplaceCharConcat(head + [c], tail, c, "");
  }

  /** The lenient parser undoes the thousands-separator rendering of any amount `int()` can convert. */
  lemma ParseIntGrouped(n: nat)
    requires |NatToString(n)| <= MaxStrDigits
    ensures ParseInt(Str(Grouped(n))) == n
  {
    GroupedDigits(n);
    DigitsRead(Replace(Grouped(n), ",", ""));
  }

  /** ... and its negative form. */
  lemma ParseIntGroupedNegative(n: nat)
    requires |NatToString(n)| <= MaxStrDigits
    ensures ParseInt(Str("-" + Grouped(n))) == -(n as int)
  {
    GroupedDigits(n);
    var digits := Replace(Grouped(n), ",", "");
    ReplaceCharConcat("-", Grouped(n), ',', "");
    ReplaceCharAbsent("-", ',', "");
    assert Replace("-" + Grouped(n), ",", "") == "-" + digits;
    NegativeDigitsRead(digits);
  }

  /** A character outside the number syntax, other than a comma, makes `parse_int` give 0. */
  lemma ParseIntRejects(s: string, i: int)
    requires 0 <= i < |s| && s[i] != ',' && !IntSyntax(IntChar(s[i]))
    ensures ParseInt(Str(s)) == 0
  {
    var t := Replace(s, ",", "");
    var c := s[i];
    ReplaceCharConcat(s[..i], s[i..], ',', "");
    assert s == s[..i] + s[i..];
    assert s[i..] == [c] + s[i + 1..];
    ReplaceCharConcat([c], s[i + 1..], ',', "");
    ReplaceCharAbsent([c], ',', "");
    var j := |Replace(s[..i], ",", "")|;
    assert t[j] == c;
    ForeignRejected(t, j);
  }

  /** A digit-less remainder after removing commas gives 0: `parse_int` never reads empty text. */
  lemma ParseIntBlank()
    ensures ParseInt(Str("")) == 0
    ensures ParseInt(Str(",")) == 0
  {
    EmptyRejected();
    assert Replace(",", ",", "") == "";
  }

  /** Non-ASCII whitespace such as a no-break space around the digits is skipped. */
  lemma ParseIntNoBreakSpace(n: nat)
    requires |NatToString(n)| <= MaxStrDigits
    ensures ParseInt(Str("\U{00A0}" + Grouped(n) + "\U{3000}")) == n
  {
    var g := Grouped(n);
    var s := "\U{00A0}" + g + "\U{3000}";
    ReplaceCharConcat("\U{00A0}" + g, "\U{3000}", ',', "");
    ReplaceCharConcat("\U{00A0}", g, ',', "");
    ReplaceCharAbsent("\U{00A0}", ',', "");
    ReplaceCharAbsent("\U{3000}", ',', "");
    GroupedDigits(n);
    var d := Replace(g, ",", "");
    assert Replace(s, ",", "") == "\U{00A0}" + d + "\U{3000}";
    IntIgnoresPadding("\U{00A0}", d, "\U{3000}");
    DigitsRead(d);
  }

  /**
   * `int(v or 0)` and `parse_int` agree wherever the first succeeds: on a
   * falsy value both give 0, and text `int()` reads holds no comma for
   * `parse_int` to remove.
   */
  lemma IntOrZeroAgrees(v: Scalar)
    requires IntOrZero(v).Some?
    ensures IntOrZero(v) == Some(ParseInt(v))
  {
    match v
    case Str(s) =>
      if s == "" {
        ParseIntBlank();
      } else if ',' in s {
        CommaRejected(s);
      } else {
        ReplaceCharAbsent(s, ',', "");
      }
    case Composite(repr) =>
      ReplaceCharAbsent(repr, ',', "");
      ForeignRejected(repr, 0);
    case _ =>
  }

  /**
   * `parse_volume` strips with `str.strip()` before removing commas;
   * `parse_int` leaves the stripping to `int()`. On text without '<' and
   * without the separators \x1c..\x1f the two read the same number.
   */
  lemma VolumeAgreesWithParseInt(s: string)
    requires '<' !in s
    requires forall i :: 0 <= i < |s| ==> !('\U{001c}' <= s[i] <= '\U{001f}')
    ensures ParseVolume(Str(s)) == ParseInt(Str(s))
  {
    StripBeforeInt(s);
    StripFrom(s, '<');
    ContainsChar(Strip(s), '<');
  }

  /** Stripping with `str.strip()` before `int()` changes nothing when there are no separators. */
  lemma StripBeforeInt(s: string)
    requires forall i :: 0 <= i < |s| ==> !('\U{001c}' <= s[i] <= '\U{001f}')
    ensures PyIntOfStr(Replace(Strip(s), ",", "")) == PyIntOfStr(Replace(s, ",", ""))
  {
    var u, m, w := StripParts(s);
    var d := Replace(m, ",", "");
    assert Replace(s, ",", "") == u + d + w by {
      SkipsNoComma(u);
      SkipsNoComma(w);
      RemoveCommasAround(u, m, w);
    }
    IntIgnoresPadding(u, d, w);
  }

  lemma SkipsNoComma(w: string)
    requires forall i :: 0 <= i < |w| ==> IntSkips(w[i])
    ensures ',' !in w
  {
    forall i | 0 <= i < |w| ensures w[i] != ',' {
      assert IntSkips(w[i]);
    }
  }

  /** `str.strip()` splits a separator-free text into padding `int()` also skips, and the stripped middle. */
  lemma StripParts(s: string) returns (u: string, m: string, w: string)
    requires forall i :: 0 <= i < |s| ==> !('\U{001c}' <= s[i] <= '\U{001f}')
    ensures s == u + m + w && Strip(s) == m
    ensures forall i :: 0 <= i < |u| ==> IntSkips(u[i])
    ensures forall i :: 0 <= i < |w| ==> IntSkips(w[i])
  {
    var k, n := StripBounds(s);
    u := SkippedSlice(s, 0, k);
    w := SkippedSlice(s, n, |s|);
    m := s[k..n];
    ThreeSlices(s, k, n);
  }

  lemma ThreeSlices(s: string, k: nat, n: nat)
    requires k <= n <= |s|
    ensures s == s[0..k] + s[k..n] + s[n..|s|]
  {
    assert s[0..k] + s[k..n] == s[0..n];
  }

  /** A run of `str.strip()` whitespace in separator-free text is one `int()` skips as well. */
  lemma SkippedSlice(s: string, a: nat, b: nat) returns (t: string)
    requires a <= b <= |s|
    requires forall i :: a <= i < b ==> IsSpace(s[i])
    requires forall i :: 0 <= i < |s| ==> !('\U{001c}' <= s[i] <= '\U{001f}')
    ensures t == s[a..b]
    ensures forall i :: 0 <= i < |t| ==> IntSkips(t[i])
  {
    t := s[a..b];
    forall i | 0 <= i < |t| ensures IntSkips(t[i]) {
      assert t[i] == s[a + i];
    }
  }

  lemma RemoveCommasAround(u: string, m: string, w: string)
    requires ',' !in u && ',' !in w
    ensures Replace(u + m + w, ",", "") == u + Replace(m, ",", "") + w
  {
    ReplaceCharConcat(u + m, w, ',', "");
    ReplaceCharConcat(u, m, ',', "");
    ReplaceCharAbsent(u, ',', "");
    ReplaceCharAbsent(w, ',', "");
  }

  /**
   * ... and the separators are where they part: before a number,
   * `str.strip()` removes one and `parse_volume` reads the number, while
   * `int()` refuses it and `parse_int` gives 0.
   */
  lemma VolumeSeparatorDiffers(c: char, d: string)
    requires '\U{001c}' <= c <= '\U{001f}'
    requires 0 < |d| <= MaxStrDigits && AllDigits(d)
    ensures ParseVolume(Str([c] + d)) == DigitsValue(d)
    ensures ParseInt(Str([c] + d)) == 0
  {
    VolumeSeparatorStripped(c, d);
    SeparatorParsesZero(c, d);
  }

  lemma SeparatorParsesZero(c: char, d: string)
    requires '\U{001c}' <= c <= '\U{001f}'
    ensures ParseInt(Str([c] + d)) == 0
  {
    var s := [c] + d;
    assert s[0] == c && c != ',' && !IntSyntax(IntChar(c)) by {
      assert c as int < 127;
    }
    ParseIntRejects(s, 0);
  }

  lemma VolumeSeparatorStripped(c: char, d: string)
    requires '\U{001c}' <= c <= '\U{001f}'
    requires 0 < |d| <= MaxStrDigits && AllDigits(d)
    ensures ParseVolume(Str([c] + d)) == DigitsValue(d)
  {
    SeparatorStripped(c, d);
    VolumeOfDigits([c] + d, d);
  }

  lemma SeparatorStripped(c: char, d: string)
    requires '\U{001c}' <= c <= '\U{001f}'
    requires 0 < |d| && AllDigits(d)
    ensures Strip([c] + d) == d
  {
    DigitNotSpace(d[0]);
    DigitNotSpace(d[|d| - 1]);
    assert ([c] + d)[1..] == d;
    StripNoSpace(d);
  }

  /** Text that strips to a digit string is read by `parse_volume` as the digits' value. */
  lemma VolumeOfDigits(x: string, d: string)
    requires Strip(x) == d && 0 < |d| <= MaxStrDigits && AllDigits(d)
    ensures ParseVolume(Str(x)) == DigitsValue(d)
  {
    forall i | 0 <= i < |d| ensures d[i] != '<' && d[i] != ',' {
      assert IsDigit(d[i]);
    }
    ContainsChar(d, '<');
    ReplaceCharAbsent(d, ',', "");
    DigitsRead(d);
  }

  /** The API's "< 10" volume reads as 5. */
  lemma VolumeBelowTen()
    ensures ParseVolume(Str("< 10")) == 5
  {}
}
