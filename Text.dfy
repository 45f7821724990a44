/** The few JavaScript string and number built-ins the program leans on: `String.prototype.split`,
    `parseInt`, the comparison `Number(s) < n`, and the printing of a number in a template
    literal. Numbers are restricted to the integers and NaN, and number text to optionally
    signed decimal digit strings. */
module Text {
  import opened Wrappers

  /** A JavaScript number as this program can produce it. */
  datatype Num = Int(v: int) | NaN

  predicate IsDigit(c: char)
  {
    '0' <= c <= '9'
  }

  /** A non-empty run of decimal digits. */
  predicate IsDigits(s: string)
  {
    |s| > 0 && forall i :: 0 <= i < |s| ==> IsDigit(s[i])
  }

  function DigitChar(k: nat): (c: char)
    requires k < 10
    ensures IsDigit(c)
  {
    ('0' as int + k) as char
  }

  function DigitValue(c: char): (k: nat)
    requires IsDigit(c)
    ensures k < 10 && DigitChar(k) == c
  {
    c as int - '0' as int
  }

  /** The value of a digit string, most significant digit first. */
  function DigitsValue(s: string): nat
    requires IsDigits(s)
    decreases |s|
  {
    if |s| == 1 then DigitValue(s[0])
    else 10 * DigitsValue(s[..|s| - 1]) + DigitValue(s[|s| - 1])
  }

  /** The shortest decimal text of a natural number: digits only, with no leading zero
      except for 0 itself. */
  function NatToString(k: nat): (s: string)
    ensures IsDigits(s)
    ensures k < 10 <==> |s| == 1
    ensures s[0] == '0' <==> k == 0
  {
    if k < 10 then [DigitChar(k)] else NatToString(k / 10) + [DigitChar(k % 10)]
  }

  /** `${x}` for a number: its decimal text, with a minus sign when negative, or "NaN". */
  function Format(x: Num): string
  {
    match x
    case NaN => "NaN"
    case Int(v) => if v < 0 then "-" + NatToString(-v) else NatToString(v)
  }

  /** `parseInt(s)` on an optionally signed decimal digit string; any other text reads as NaN. */
  function ParseInt(s: string): Num
  {
    if IsDigits(s) then Int(DigitsValue(s))
    else if |s| > 1 && s[0] == '-' && IsDigits(s[1..]) then Int(-(DigitsValue(s[1..]) as int))
    else if |s| > 1 && s[0] == '+' && IsDigits(s[1..]) then Int(DigitsValue(s[1..]))
    else NaN
  }

  /** `Number(s) < n` for a field that may be missing: a missing field is NaN and never less;
      the empty string counts as 0; a signed digit string counts as its value. */
  function NumberBelow(s: Option<string>, n: int): bool
  {
    match s
    case None => false
    case Some(t) =>
      if t == "" then 0 < n
      else match ParseInt(t)
        case Int(v) => v < n
        case NaN => false
  }

  lemma {:induction false} DigitsRoundTrip(k: nat)
    ensures DigitsValue(NatToString(k)) == k
  {
    if k >= 10 {
      var s := NatToString(k);
      assert s[..|s| - 1] == NatToString(k / 10);
      DigitsRoundTrip(k / 10);
    }
  }

  /** Reading back a printed number gives the same number: `parseInt(`${x}`) == x`. */
  lemma ParseFormat(x: Num)
    ensures ParseInt(Format(x)) == x
  {
    match x
    case NaN =>
      assert !IsDigit('N');
    case Int(v) =>
      if v < 0 {
        var s := Format(x);
        assert !IsDigit(s[0]);
        assert s[1..] == NatToString(-v);
        DigitsRoundTrip(-v);
      } else {
        DigitsRoundTrip(v);
      }
  }

  /** A printed number contains neither of the separators the program splits on. */
  lemma FormatHasNoSeparator(x: Num, sep: char)
    requires sep == ',' || sep == ' '
    ensures sep !in Format(x)
  {
    match x
    case NaN =>
    case Int(v) =>
      var d := NatToString(if v < 0 then -v else v);
      assert forall i :: 0 <= i < |d| ==> d[i] != sep;
  }

  /** `s.split(sep)` for a one-character separator: always at least one piece. */
  function Split(s: string, sep: char): (parts: seq<string>)
    ensures |parts| > 0
  {
    if s == [] then [""]
    else
      var rest := Split(s[1..], sep);
      if s[0] == sep then [""] + rest
      else [[s[0]] + rest[0]] + rest[1..]
  }

  /** `parts.join(sep)`. */
  function Join(parts: seq<string>, sep: char): string
    requires |parts| > 0
  {
    if |parts| == 1 then parts[0] else parts[0] + [sep] + Join(parts[1..], sep)
  }

  /** The element of a destructuring `const [a, b, c] = parts`: missing ones are undefined. */
  function Field(parts: seq<string>, i: nat): (f: Option<string>)
    ensures f.Some? <==> i < |parts|
  {
    if i < |parts| then Some(parts[i]) else None
  }

  /** Joining the pieces of a split gives back the original text. */
  lemma {:induction false} JoinSplit(s: string, sep: char)
    ensures Join(Split(s, sep), sep) == s
  {
    if s != [] {
      var rest := Split(s[1..], sep);
      JoinSplit(s[1..], sep);
      if s[0] == sep {
        assert ([""] + rest)[1..] == rest;
      } else {
        var parts := [[s[0]] + rest[0]] + rest[1..];
        if |rest| == 1 {
          assert parts == [[s[0]] + rest[0]];
        } else {
          assert parts[1..] == rest[1..];
          assert s == [s[0]] + s[1..];
        }
      }
    }
  }

  /** Splitting text that starts with a separator-free word puts that word at the head of the
      first piece. */
  lemma {:induction false} SplitAfterWord(w: string, rest: string, sep: char)
    requires sep !in w
    ensures Split(w + rest, sep) == [w + Split(rest, sep)[0]] + Split(rest, sep)[1..]
  {
    if w != [] {
      assert (w + rest)[1..] == w[1..] + rest;
      SplitAfterWord(w[1..], rest, sep);
      assert [w[0]] + (w[1..] + Split(rest, sep)[0]) == w + Split(rest, sep)[0];
    } else {
      var parts := Split(rest, sep);
      assert w + rest == rest && w + parts[0] == parts[0];
      assert parts == [parts[0]] + parts[1..];
    }
  }

  /** Splitting a join of separator-free pieces gives back those pieces. */
  lemma {:induction false} SplitJoin(parts: seq<string>, sep: char)
    requires |parts| > 0
    requires forall i :: 0 <= i < |parts| ==> sep !in parts[i]
    ensures Split(Join(parts, sep), sep) == parts
  {
    if |parts| == 1 {
      SplitAfterWord(parts[0], "", sep);
      assert parts[0] + "" == parts[0];
    } else {
      var tail := Join(parts[1..], sep);
      SplitJoin(parts[1..], sep);
      assert Join(parts, sep) == parts[0] + ([sep] + tail);
      SplitAfterWord(parts[0], [sep] + tail, sep);
      assert ([sep] + tail)[1..] == tail;
      var after := Split([sep] + tail, sep);
      assert after == [""] + parts[1..];
      assert after[0] == "" && after[1..] == parts[1..];
      assert parts[0] + "" == parts[0];
      assert parts == [parts[0]] + parts[1..];
    }
  }
}
