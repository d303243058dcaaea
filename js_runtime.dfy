/**
 * The pieces of JavaScript's runtime semantics that the server code relies on:
 * number values, `parseInt` results, `Array.prototype.slice`, the truncating `%`,
 * `String.prototype.trim`, `split`, `join`, `toLowerCase` and number-to-string.
 *
 * Parsing (`parseInt`, `Number`, `new Date`) is not defined here: it is given by a
 * `Runtime` value whose fields stand for those host functions.
 */
module JsRuntime {
  import opened Maybe

  /** A JavaScript number. */
  datatype Number = NaN | Infinite(negative: bool) | Finite(value: real)

  /** What `parseInt` returns: an integer, or NaN when no digit could be read. */
  datatype ParsedInt = Int(value: int) | NotANumber

  /** A finite number without a fractional part. */
  predicate IsInteger(n: Number) {
    n.Finite? && n.value.Floor as real == n.value
  }

  /**
   * The host functions the model takes as given, one field per function.
   *  - parseInt:         `parseInt(s)` with no radix (a "0x" prefix selects base 16)
   *  - parseInt10:       `parseInt(s, 10)`
   *  - toNumber:         `Number(s)`
   *  - toDate:           `new Date(s).getTime()`, None for an Invalid Date
   *  - dateToString:     `Date.prototype.toString` of a valid time value
   *  - generalToString:  `Number.prototype.toString` of a finite number that is not a
   *                      safe integer (a fraction, a large integer written with the
   *                      double's shortest digits, or exponent notation)
   */
  datatype Runtime = Runtime(
    parseInt: string -> ParsedInt,
    parseInt10: string -> ParsedInt,
    toNumber: string -> Number,
    toDate: string -> Option<int>,
    dateToString: int -> string,
    generalToString: real -> string)

  /** JavaScript truthiness of a string that may be null: present and not "". */
  predicate Truthy(s: Option<string>) {
    s.Some? && s.value != ""
  }

  /** `a + b` on two `parseInt` results; NaN absorbs. */
  function AddParsed(a: ParsedInt, b: ParsedInt): ParsedInt {
    if a.Int? && b.Int? then Int(a.value + b.value) else NotANumber
  }

  /** JavaScript's `%` on integers with a positive divisor: the sign follows the dividend. */
  function Rem(a: int, b: int): (r: int)
    requires b > 0
    ensures -b < r < b
    ensures a >= 0 ==> r == a % b
    ensures a < 0 ==> r <= 0
  {
    if a >= 0 then a % b else -((-a) % b)
  }

  // ---------------------------------------------------------------------------
  // Array.prototype.slice

  /** The absolute index `slice` resolves a relative position to: NaN counts as 0,
      a negative position counts from the end, and the result is clamped to [0, len]. */
  function SliceIndex(rel: ParsedInt, len: nat): (k: nat)
    ensures k <= len
    ensures rel.Int? && 0 <= rel.value ==> k == (if rel.value < len then rel.value else len)
    ensures rel.Int? && rel.value < 0 ==> k == (if len + rel.value < 0 then 0 else len + rel.value)
    ensures rel.NotANumber? ==> k == 0
  {
    var r := if rel.Int? then rel.value else 0;
    if r < 0 then (if len + r < 0 then 0 else len + r)
    else if r < len then r else len
  }

  /** `s.slice(start, end)`; an absent `end` means the length. */
  function Slice<T>(s: seq<T>, start: ParsedInt, end: Option<ParsedInt>): seq<T> {
    var from := SliceIndex(start, |s|);
    var to := if end.Some? then SliceIndex(end.value, |s|) else |s|;
    if from < to then s[from..to] else []
  }

  /** For non-negative positions, `slice` is the usual clamped subsequence. */
  lemma SliceNonNegative<T>(s: seq<T>, start: nat, end: Option<nat>)
    ensures var from := if start < |s| then start else |s|;
            var to := if end.None? || |s| <= end.value then |s| else end.value;
            Slice(s, Int(start), if end.Some? then Some(Int(end.value)) else None)
              == if from < to then s[from..to] else []
  {
  }

  // ---------------------------------------------------------------------------
  // Strings

  /** The characters `String.prototype.trim` removes (WhiteSpace and LineTerminator). */
  predicate IsWhitespace(c: char) {
    var n := c as int;
    (9 <= n <= 13) || n == 32 || n == 0xA0 || n == 0x1680 || (0x2000 <= n <= 0x200A)
    || n == 0x2028 || n == 0x2029 || n == 0x202F || n == 0x205F || n == 0x3000 || n == 0xFEFF
  }

  /** `s.trimStart()`: the longest suffix that does not start with whitespace; only
      whitespace is dropped. */
  function TrimStart(s: string): (r: string)
    ensures |r| <= |s| && r == s[|s| - |r|..]
    ensures forall k :: 0 <= k < |s| - |r| ==> IsWhitespace(s[k])
    ensures r == [] || !IsWhitespace(r[0])
    ensures s == [] || !IsWhitespace(s[0]) ==> r == s
  {
    if s != [] && IsWhitespace(s[0]) then
      var r := TrimStart(s[1..]);
      assert forall k :: 1 <= k < |s| ==> s[k] == s[1..][k - 1];
      r
    else s
  }

  /** `s.trimEnd()`: the longest prefix that does not end with whitespace; only
      whitespace is dropped. */
  function TrimEnd(s: string): (r: string)
    ensures |r| <= |s| && r == s[..|r|]
    ensures forall k :: |r| <= k < |s| ==> IsWhitespace(s[k])
    ensures r == [] || !IsWhitespace(r[|r| - 1])
    ensures s == [] || !IsWhitespace(s[|s| - 1]) ==> r == s
  {
    if s != [] && IsWhitespace(s[|s| - 1]) then
      var r := TrimEnd(s[..|s| - 1]);
      assert forall k :: 0 <= k < |s| - 1 ==> s[k] == s[..|s| - 1][k];
      r
    else s
  }

  /** A string that neither starts nor ends with whitespace. */
  predicate IsTrimmed(s: string) {
    s == [] || (!IsWhitespace(s[0]) && !IsWhitespace(s[|s| - 1]))
  }

  /** Every character of `s` outside positions `i` to `j` is whitespace. */
  predicate WhitespaceOutside(s: string, i: nat, j: nat) {
    forall k :: 0 <= k < |s| && !(i <= k < j) ==> IsWhitespace(s[k])
  }

  /** `s.trim()`: a slice of `s` with no whitespace at either end, and only whitespace
      around it; a string without any there is returned as it is. */
  function Trim(s: string): (r: string)
    ensures IsTrimmed(r)
    ensures exists i, j :: 0 <= i <= j <= |s| && r == s[i..j] && WhitespaceOutside(s, i, j)
    ensures IsTrimmed(s) ==> r == s
  {
    TrimIsSlice(s);
    TrimEnd(TrimStart(s))
  }

  /** Trimming both ends keeps the slice between the dropped runs of whitespace. */
  lemma TrimIsSlice(s: string)
    ensures var i := |s| - |TrimStart(s)|;
            var r := TrimEnd(TrimStart(s));
            i + |r| <= |s| && r == s[i..i + |r|] && WhitespaceOutside(s, i, i + |r|)
  {
    var t := TrimStart(s);
    var i := |s| - |t|;
    WhitespaceAround(s, i, TrimEnd(t));
  }

  /** A prefix `r` of `s[i..]` is surrounded by whitespace when the characters before
      `i` and those of `s[i..]` after `r` all are. */
  lemma WhitespaceAround(s: string, i: nat, r: string)
    requires i <= |s| && |r| <= |s| - i && r == s[i..][..|r|]
    requires forall k :: 0 <= k < i ==> IsWhitespace(s[k])
    requires forall k :: |r| <= k < |s| - i ==> IsWhitespace(s[i..][k])
    ensures r == s[i..i + |r|] && WhitespaceOutside(s, i, i + |r|)
  {
    var t := s[i..];
    forall k | 0 <= k < |s| && !(i <= k < i + |r|)
      ensures IsWhitespace(s[k])
    {
      if i + |r| <= k {
        assert s[k] == t[k - i];
      }
    }
  }

  /** `s.split(sep)` for a one-character separator. */
  function Split(s: string, sep: char): (parts: seq<string>)
    ensures |parts| >= 1
  {
    if s == [] then [""]
    else
      var rest := Split(s[1..], sep);
      if s[0] == sep then [""] + rest else [[s[0]] + rest[0]] + rest[1..]
  }

  /** `parts.join(sep)`. */
  function Join(parts: seq<string>, sep: char): string {
    if parts == [] then ""
    else if |parts| == 1 then parts[0]
    else parts[0] + [sep] + Join(parts[1..], sep)
  }

  /** Joining the pieces of a split gives back the original string. */
  lemma {:induction false} JoinSplit(s: string, sep: char)
    ensures Join(Split(s, sep), sep) == s
  {
    if s != [] {
      var rest := Split(s[1..], sep);
      JoinSplit(s[1..], sep);
      if s[0] == sep {
        assert ([""] + rest)[1..] == rest;
      } else if |rest| > 1 {
        var parts := [[s[0]] + rest[0]] + rest[1..];
        assert parts[1..] == rest[1..];
        assert Join(rest, sep) == rest[0] + [sep] + Join(rest[1..], sep);
        assert s == [s[0]] + s[1..];
      } else {
        assert s == [s[0]] + s[1..];
      }
    }
  }

  /** No piece of a split contains the separator. */
  lemma {:induction false} SplitPiecesAvoidSeparator(s: string, sep: char)
    ensures forall i :: 0 <= i < |Split(s, sep)| ==> sep !in Split(s, sep)[i]
  {
    if s != [] {
      SplitPiecesAvoidSeparator(s[1..], sep);
      var rest := Split(s[1..], sep);
      if s[0] != sep {
        var parts := [[s[0]] + rest[0]] + rest[1..];
        forall i | 0 <= i < |parts| ensures sep !in parts[i] {
          if i == 0 {
            assert sep !in rest[0];
          } else {
            assert parts[i] == rest[i];
          }
        }
      } else {
        var parts := [""] + rest;
        forall i | 0 <= i < |parts| ensures sep !in parts[i] {
          if i > 0 { assert parts[i] == rest[i - 1]; }
        }
      }
    }
  }

  /** Splitting a string that starts with a separator-free piece `p`. */
  lemma {:induction false} SplitAfterPiece(p: string, t: string, sep: char)
    requires sep !in p
    ensures Split(p + t, sep) == [p + Split(t, sep)[0]] + Split(t, sep)[1..]
  {
    if p != [] {
      SplitAfterPiece(p[1..], t, sep);
      assert (p + t)[1..] == p[1..] + t;
      assert (p + t)[0] == p[0];
      assert [p[0]] + (p[1..] + Split(t, sep)[0]) == p + Split(t, sep)[0];
    } else {
      assert p + t == t;
      assert p + Split(t, sep)[0] == Split(t, sep)[0];
      assert Split(t, sep) == [Split(t, sep)[0]] + Split(t, sep)[1..];
    }
  }

  /** Splitting a join of separator-free pieces gives back the pieces. */
  lemma {:induction false} SplitJoin(parts: seq<string>, sep: char)
    requires |parts| >= 1
    requires forall i :: 0 <= i < |parts| ==> sep !in parts[i]
    ensures Split(Join(parts, sep), sep) == parts
  {
    if |parts| == 1 {
      SplitAfterPiece(parts[0], "", sep);
      assert parts[0] + "" == parts[0];
    } else {
      var tail := [sep] + Join(parts[1..], sep);
      SplitJoin(parts[1..], sep);
      assert Join(parts, sep) == parts[0] + tail;
      SplitAfterPiece(parts[0], tail, sep);
      assert tail[0] == sep && tail[1..] == Join(parts[1..], sep);
      assert Split(tail, sep) == [""] + parts[1..];
      assert Split(tail, sep)[0] == "" && Split(tail, sep)[1..] == parts[1..];
      assert parts[0] + "" == parts[0];
      assert parts == [parts[0]] + parts[1..];
    }
  }

  /** `sep` occurs in `s` starting at position `i`. */
  predicate OccursAt(s: string, sep: string, i: nat) {
    i + |sep| <= |s| && s[i..i + |sep|] == sep
  }

  /** `s.indexOf(sep, from)` for a non-empty `sep`: the first position at or after `from`
      where it occurs, None for -1. */
  function IndexOf(s: string, sep: string, from: nat): (r: Option<nat>)
    requires |sep| > 0
    ensures r.Some? ==> from <= r.value && OccursAt(s, sep, r.value)
    ensures r.Some? ==> forall k :: from <= k < r.value ==> !OccursAt(s, sep, k)
    ensures r.None? ==> forall k :: from <= k ==> !OccursAt(s, sep, k)
    decreases |s| - from
  {
    if from + |sep| > |s| then None
    else if OccursAt(s, sep, from) then Some(from)
    else IndexOf(s, sep, from + 1)
  }

  /** `s.split(sep)[1]` for a non-empty `sep`: the text between the first and the
      second occurrence of `sep` (or the end), undefined when `sep` does not occur. */
  function SecondPiece(s: string, sep: string): (r: Option<string>)
    requires |sep| > 0
    ensures r.None? <==> IndexOf(s, sep, 0).None?
    ensures r.Some? ==> var i := IndexOf(s, sep, 0).value;
                        r.value <= s[i + |sep|..] && IndexOf(r.value, sep, 0).None?
    ensures r.Some? ==> var rest := s[IndexOf(s, sep, 0).value + |sep|..];
                        && (r.value == rest || OccursAt(rest, sep, |r.value|))
                        && forall k :: 0 <= k < |r.value| ==> !OccursAt(rest, sep, k)
  {
    match IndexOf(s, sep, 0)
    case None => None
    case Some(i) =>
      var rest := s[i + |sep|..];
      match IndexOf(rest, sep, 0)
      case None => Some(rest)
      case Some(j) =>
        NoOccurrenceBefore(rest, sep, j);
        Some(rest[..j])
  }

  /** The text before the first occurrence of `sep` holds no occurrence of it. */
  lemma NoOccurrenceBefore(s: string, sep: string, j: nat)
    requires |sep| > 0 && j <= |s|
    requires forall k :: 0 <= k < j ==> !OccursAt(s, sep, k)
    ensures IndexOf(s[..j], sep, 0).None?
  {
    var t := s[..j];
    forall k | 0 <= k
      ensures !OccursAt(t, sep, k)
    {
      if k + |sep| <= |t| {
        assert !OccursAt(s, sep, k);
        assert t[k..k + |sep|] == s[k..k + |sep|];
      }
    }
  }

  /** When `t` holds no occurrence of `sep`, the piece after a leading `sep` is `t`. */
  lemma SecondPieceAfterPrefix(sep: string, t: string)
    requires |sep| > 0 && IndexOf(t, sep, 0).None?
    ensures SecondPiece(sep + t, sep) == Some(t)
  {
    assert OccursAt(sep + t, sep, 0);
    assert (sep + t)[|sep|..] == t;
  }

  /** A string made only of characters outside `sep` holds no occurrence of it. */
  lemma NoOccurrenceWithoutChar(t: string, sep: string, c: char)
    requires |sep| > 0 && c in sep && c !in t
    ensures IndexOf(t, sep, 0).None?
  {
    var m :| 0 <= m < |sep| && sep[m] == c;
    forall k | 0 <= k ensures !OccursAt(t, sep, k) {
      if k + |sep| <= |t| {
        assert t[k..k + |sep|][m] == t[k + m];
      }
    }
  }

  /** ASCII `toLowerCase` of one character. */
  function LowerChar(c: char): char {
    if 'A' <= c <= 'Z' then (c as int + 32) as char else c
  }

  /** `s.toLowerCase()`, for the ASCII letters. */
  function ToLower(s: string): (r: string)
    ensures |r| == |s|
    ensures forall i :: 0 <= i < |s| ==> r[i] == LowerChar(s[i])
  {
    seq(|s|, i requires 0 <= i < |s| => LowerChar(s[i]))
  }

  // ---------------------------------------------------------------------------
  // Numbers as decimal text

  predicate IsDigit(c: char) {
    '0' <= c <= '9'
  }

  function DigitChar(d: nat): (c: char)
    requires d < 10
    ensures IsDigit(c) && c as int - '0' as int == d
  {
    ('0' as int + d) as char
  }

  /** The decimal numeral of `n`, without sign or leading zeros. */
  function NatToString(n: nat): (s: string)
    ensures |s| >= 1
    ensures forall i :: 0 <= i < |s| ==> IsDigit(s[i])
    decreases n
  {
    if n < 10 then [DigitChar(n)] else NatToString(n / 10) + [DigitChar(n % 10)]
  }

  /** `String(n)` for an integer. */
  function IntToString(n: int): string {
    if n < 0 then "-" + NatToString(-n) else NatToString(n)
  }

  function DigitValue(c: char): nat
    requires IsDigit(c)
  {
    c as int - '0' as int
  }

  /** The value of a string of decimal digits. */
  function DigitsValue(s: string): nat
    requires forall i :: 0 <= i < |s| ==> IsDigit(s[i])
  {
    if s == [] then 0 else DigitsValue(s[..|s| - 1]) * 10 + DigitValue(s[|s| - 1])
  }

  /** Reading back a numeral gives the number it was written from. */
  lemma {:induction false} DigitsValueOfNatToString(n: nat)
    ensures DigitsValue(NatToString(n)) == n
    decreases n
  {
    if n >= 10 {
      DigitsValueOfNatToString(n / 10);
      var s := NatToString(n);
      assert s[..|s| - 1] == NatToString(n / 10);
    }
  }

  /** `Number.MAX_SAFE_INTEGER`, 2^53 - 1. */
  const MaxSafeInteger: int := 9_007_199_254_740_991

  /** `Number.isSafeInteger`: an integer that a double holds exactly, together with
      every integer next to it, so that `String(n)` writes exactly its decimal numeral. */
  predicate IsSafeInteger(n: int) {
    -MaxSafeInteger <= n <= MaxSafeInteger
  }

  /** `String(n)` / `n.toString()` for any number: the exact numeral for a safe integer,
      the host's text for any other finite number. */
  function NumberToString(n: Number, rt: Runtime): (s: string)
    ensures n.Finite? && n.value.Floor as real == n.value && IsSafeInteger(n.value.Floor) ==>
              s == IntToString(n.value.Floor)
    ensures n.Finite? && !(n.value.Floor as real == n.value && IsSafeInteger(n.value.Floor)) ==>
              s == rt.generalToString(n.value)
    ensures !n.Finite? ==> s in {"NaN", "Infinity", "-Infinity"}
  {
    match n
    case NaN => "NaN"
    case Infinite(neg) => if neg then "-Infinity" else "Infinity"
    case Finite(v) =>
      if v.Floor as real == v && IsSafeInteger(v.Floor) then IntToString(v.Floor) else rt.generalToString(v)
  }

  /** `String(n)` for the results of `parseInt`. */
  function ParsedIntToString(p: ParsedInt, rt: Runtime): (s: string)
    ensures p.Int? && IsSafeInteger(p.value) ==> s == IntToString(p.value)
    ensures p.Int? && !IsSafeInteger(p.value) ==> s == rt.generalToString(p.value as real)
    ensures p.NotANumber? ==> s == "NaN"
  {
    match p
    case Int(n) => NumberToString(Finite(n as real), rt)
    case NotANumber => "NaN"
  }
}
