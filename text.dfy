/**
 * The Rust string primitives the installer code relies on, on `seq<char>`:
 * character classes, UTF-8 byte length (`str::len`), `trim`, `split_once`,
 * `split`/`join`, `splitn`, `lines`, `strip_prefix`, and `usize` parsing
 * and display.
 */
module Text {
  import opened Wrappers

  // ---------------------------------------------------------------------
  // Character classes

  predicate IsAsciiDigit(c: char) { '0' <= c <= '9' }

  predicate IsAsciiAlphabetic(c: char) { 'a' <= c <= 'z' || 'A' <= c <= 'Z' }

  predicate IsAsciiAlphanumeric(c: char) { IsAsciiDigit(c) || IsAsciiAlphabetic(c) }

  predicate IsAscii(c: char) { c < 128 as char }

  /** `char::is_whitespace`: the Unicode White_Space property. */
  predicate IsWhitespace(c: char)
  {
    ('\U{0009}' <= c <= '\U{000D}') || c == ' ' || c == '\U{0085}' || c == '\U{00A0}'
    || c == '\U{1680}' || ('\U{2000}' <= c <= '\U{200A}') || c == '\U{2028}' || c == '\U{2029}'
    || c == '\U{202F}' || c == '\U{205F}' || c == '\U{3000}'
  }

  predicate AllAsciiDigits(s: string) { forall i :: 0 <= i < |s| ==> IsAsciiDigit(s[i]) }

  // ---------------------------------------------------------------------
  // UTF-8 length, which is what `str::len` counts

  function Utf8Len(c: char): (n: nat)
    ensures 1 <= n <= 4
    ensures n == 1 <==> IsAscii(c)
  {
    if c < 0x80 as char then 1
    else if c < 0x800 as char then 2
    else if c < 0x1_0000 as char then 3
    else 4
  }

  function ByteLen(s: string): nat
  {
    if s == [] then 0 else Utf8Len(s[0]) + ByteLen(s[1..])
  }

  lemma {:induction false} ByteLenBounds(s: string)
    ensures ByteLen(s) >= |s|
    ensures (forall i :: 0 <= i < |s| ==> IsAscii(s[i])) ==> ByteLen(s) == |s|
  {
    if s != [] {
      ByteLenBounds(s[1..]);
      assert forall i :: 0 <= i < |s[1..]| ==> s[1..][i] == s[i + 1];
    }
  }

  // ---------------------------------------------------------------------
  // Prefix, suffix, searching

  predicate StartsWith(s: string, p: string) { |p| <= |s| && s[..|p|] == p }

  predicate EndsWith(s: string, p: string) { |p| <= |s| && s[|s| - |p|..] == p }

  /** `str::strip_prefix`. */
  function StripPrefix(s: string, p: string): (r: Option<string>)
    ensures r.Some? <==> StartsWith(s, p)
  {
    if StartsWith(s, p) then Some(s[|p|..]) else None
  }

  /** Position of the first occurrence of `c`. */
  function IndexOf(s: string, c: char): (r: Option<nat>)
    ensures r.None? <==> c !in s
    ensures r.Some? ==> r.value < |s| && s[r.value] == c && c !in s[..r.value]
  {
    if s == [] then None
    else if s[0] == c then Some(0)
    else
      var rest := IndexOf(s[1..], c);
      if rest.None? then None
      else
        assert s[..rest.value + 1] == [s[0]] + s[1..][..rest.value];
        Some(rest.value + 1)
  }

  /** `str::split_once(c)`: the text before and after the first `c`. */
  function SplitOnce(s: string, c: char): (r: Option<(string, string)>)
    ensures r.None? <==> c !in s
    ensures r.Some? ==> s == r.value.0 + [c] + r.value.1 && c !in r.value.0
  {
    match IndexOf(s, c)
    case None => None
    case Some(i) =>
      assert s == s[..i] + [c] + s[i + 1..];
      Some((s[..i], s[i + 1..]))
  }

  /** `str::replace(c, "")`: every `c` removed. */
  function RemoveChar(s: string, c: char): (r: string)
    ensures c !in r
    ensures |r| <= |s|
    ensures c !in s ==> r == s
  {
    if s == [] then []
    else (if s[0] == c then [] else [s[0]]) + RemoveChar(s[1..], c)
  }

  // ---------------------------------------------------------------------
  // trim

  function TrimStart(s: string): (r: string)
    ensures |r| <= |s| && r == s[|s| - |r|..]
    ensures r == [] || !IsWhitespace(r[0])
    ensures forall i :: 0 <= i < |s| - |r| ==> IsWhitespace(s[i])
  {
    if s == [] then []
    else if IsWhitespace(s[0]) then TrimStart(s[1..])
    else s
  }

  function TrimEnd(s: string): (r: string)
    ensures |r| <= |s| && r == s[..|r|]
    ensures r == [] || !IsWhitespace(r[|r| - 1])
    ensures forall i :: |r| <= i < |s| ==> IsWhitespace(s[i])
  {
    if s == [] then []
    else if IsWhitespace(s[|s| - 1]) then TrimEnd(s[..|s| - 1])
    else s
  }

  /** `str::trim`. */
  function Trim(s: string): (r: string)
    ensures r == [] || (!IsWhitespace(r[0]) && !IsWhitespace(r[|r| - 1]))
    ensures |r| <= |s|
  {
    TrimEnd(TrimStart(s))
  }

  /** Trimming adds no character. */
  lemma TrimExcludes(s: string, c: char)
    requires c !in s
    ensures c !in Trim(s)
  {
    var a := TrimStart(s);
    assert a == s[|s| - |a|..];
    var b := TrimEnd(a);
    assert b == a[..|b|];
    forall i | 0 <= i < |b| ensures b[i] != c {
      assert b[i] == a[i] == s[|s| - |a| + i];
    }
  }

  /** Text that neither starts nor ends with whitespace is its own trim. */
  lemma TrimKeeps(s: string)
    requires s != [] && !IsWhitespace(s[0]) && !IsWhitespace(s[|s| - 1])
    ensures Trim(s) == s
  {
  }

  /** One trailing whitespace character is trimmed off such text. */
  lemma TrimTrailing(s: string, w: char)
    requires s != [] && !IsWhitespace(s[0]) && !IsWhitespace(s[|s| - 1])
    requires IsWhitespace(w)
    ensures Trim(s + [w]) == s
  {
    var t := s + [w];
    assert TrimStart(t) == t;
    assert t[..|t| - 1] == s;
  }

  lemma TrimNoWhitespace(s: string)
    requires forall i :: 0 <= i < |s| ==> !IsWhitespace(s[i])
    ensures Trim(s) == s
  {
  }

  // ---------------------------------------------------------------------
  // split / join

  /** `str::split(c)`: never empty; the pieces between the occurrences of `c`. */
  function Split(s: string, c: char): (r: seq<string>)
    ensures |r| >= 1
    ensures forall i :: 0 <= i < |r| ==> c !in r[i]
    decreases |s|
  {
    match SplitOnce(s, c)
    case None => [s]
    case Some((head, tail)) => [head] + Split(tail, c)
  }

  /** `[String]::join(sep)`. */
  function Join(parts: seq<string>, sep: string): string
  {
    if |parts| == 0 then []
    else if |parts| == 1 then parts[0]
    else parts[0] + sep + Join(parts[1..], sep)
  }

  lemma {:induction false} JoinSplit(s: string, c: char)
    ensures Join(Split(s, c), [c]) == s
    decreases |s|
  {
    match SplitOnce(s, c)
    case None =>
    case Some((head, tail)) =>
      JoinSplit(tail, c);
      var rest := Split(tail, c);
      assert Split(s, c) == [head] + rest;
      assert ([head] + rest)[1..] == rest;
  }

  lemma {:induction false} SplitJoin(parts: seq<string>, c: char)
    requires |parts| >= 1
    requires forall i :: 0 <= i < |parts| ==> c !in parts[i]
    ensures Split(Join(parts, [c]), c) == parts
  {
    if |parts| > 1 {
      var tail := Join(parts[1..], [c]);
      assert Join(parts, [c]) == parts[0] + [c] + tail;
      SplitOnceAt(parts[0], tail, c);
      SplitJoin(parts[1..], c);
    }
  }

  /** The last piece of a split is the text after the last separator. */
  lemma {:induction false} SplitLast(a: string, b: string, c: char)
    requires c !in b
    ensures var r := Split(a + [c] + b, c); r[|r| - 1] == b
    decreases |a|
  {
    var s := a + [c] + b;
    match IndexOf(a, c)
    case None =>
      SplitOnceAt(a, b, c);
      assert SplitOnce(b, c).None?;
    case Some(k) =>
      var rest := a[k + 1..];
      assert a == a[..k] + [c] + rest;
      assert s == a[..k] + [c] + (rest + [c] + b);
      SplitOnceAt(a[..k], rest + [c] + b, c);
      SplitLast(rest, b, c);
  }

  lemma SplitOnceAt(a: string, b: string, c: char)
    requires c !in a
    ensures SplitOnce(a + [c] + b, c) == Some((a, b))
  {
    var s := a + [c] + b;
    var i := IndexOf(s, c).value;
    assert forall j :: 0 <= j < |a| ==> s[j] == a[j] != c;
    assert s[|a|] == c;
    assert forall j :: 0 <= j < i ==> s[..i][j] == s[j] != c;
    assert i == |a|;
    assert s[..|a|] == a && s[|a| + 1..] == b;
  }

  /**
   * `str::splitn(n, c)` with `n >= 1`: at most `n` pieces, the last one keeping
   * every further `c`.
   */
  function SplitN(s: string, c: char, n: nat): (r: seq<string>)
    requires n >= 1
    ensures 1 <= |r| <= n
    ensures forall i :: 0 <= i < |r| - 1 ==> c !in r[i]
    ensures Join(r, [c]) == s
    decreases n
  {
    if n == 1 then [s]
    else
      match SplitOnce(s, c)
      case None => [s]
      case Some((head, tail)) =>
        var rest := SplitN(tail, c, n - 1);
        assert ([head] + rest)[1..] == rest;
        [head] + rest
  }

  /** `splitn(2, c)` of text with a separator before its last piece. */
  lemma SplitNTwo(a: string, rest: string, c: char)
    requires c !in a
    ensures SplitN(a + [c] + rest, c, 2) == [a, rest]
  {
    SplitOnceAt(a, rest, c);
    assert SplitN(rest, c, 1) == [rest];
  }

  /** `splitn(3, c)` of text with two separators before its last piece. */
  lemma SplitNThree(a: string, b: string, rest: string, c: char)
    requires c !in a && c !in b
    ensures SplitN(a + [c] + b + [c] + rest, c, 3) == [a, b, rest]
  {
    var tail := b + [c] + rest;
    var s := a + [c] + b + [c] + rest;
    assert s == a + [c] + tail;
    SplitOnceAt(a, tail, c);
    SplitNTwo(b, rest, c);
    assert SplitN(s, c, 3) == [a] + SplitN(tail, c, 2);
  }

  // ---------------------------------------------------------------------
  // lines

  /** Drops one trailing carriage return. */
  function StripCr(s: string): string
  {
    if |s| > 0 && s[|s| - 1] == '\r' then s[..|s| - 1] else s
  }

  /**
   * `str::lines`: the text split at each `\n`; a line ended by `\n` loses one
   * trailing `\r`; a final `\n` does not start another line.
   */
  function Lines(s: string): (r: seq<string>)
    ensures forall i :: 0 <= i < |r| ==> '\n' !in r[i]
    ensures s == [] <==> r == []
    decreases |s|
  {
    if s == [] then []
    else
      match SplitOnce(s, '\n')
      case None => [s]
      case Some((head, tail)) =>
        assert '\n' !in StripCr(head) by {
          assert StripCr(head) <= head;
        }
        [StripCr(head)] + Lines(tail)
  }

  /** Text without a line break is one line. */
  lemma LinesOfOne(s: string)
    requires s != [] && '\n' !in s
    ensures Lines(s) == [s]
  {
  }

  // ---------------------------------------------------------------------
  // usize parsing and display

  const USIZE_LIMIT: nat := 0x1_0000_0000_0000_0000

  function DigitChar(d: nat): (c: char)
    requires d < 10
    ensures IsAsciiDigit(c)
  {
    ('0' as int + d) as char
  }

  function DigitValue(c: char): (d: nat)
    requires IsAsciiDigit(c)
    ensures d < 10 && DigitChar(d) == c
  {
    c as int - '0' as int
  }

  /** Decimal display of a natural number, as `{}` formats a `usize`. */
  function NatToString(n: nat): (s: string)
    ensures |s| >= 1 && AllAsciiDigits(s)
    ensures |s| > 1 ==> s[0] != '0'
  {
    if n < 10 then [DigitChar(n)]
    else NatToString(n / 10) + [DigitChar(n % 10)]
  }

  /** The kinds of `ParseIntError` a `usize` parse can report. */
  datatype ParseIntError = Empty | InvalidDigit | PosOverflow

  /**
   * The digit loop of `usize::from_str_radix(_, 10)`: digits are read left to
   * right into `acc`; a non-digit stops with `InvalidDigit`, a value that no
   * longer fits in 64 bits stops with `PosOverflow`.
   */
  function ScanDigits(acc: nat, s: string): (r: Result<nat, ParseIntError>)
    requires acc < USIZE_LIMIT
    ensures r.Ok? ==> r.value < USIZE_LIMIT && AllAsciiDigits(s)
    ensures r.Err? ==> r.error != Empty
    decreases |s|
  {
    if s == [] then Ok(acc)
    else if !IsAsciiDigit(s[0]) then Err(InvalidDigit)
    else
      var v := acc * 10 + DigitValue(s[0]);
      if v >= USIZE_LIMIT then Err(PosOverflow)
      else
        var r := ScanDigits(v, s[1..]);
        assert r.Ok? ==> AllAsciiDigits(s) by {
          if r.Ok? { assert forall i :: 1 <= i < |s| ==> s[i] == s[1..][i - 1]; }
        }
        r
  }

  /**
   * `str::parse::<usize>()`: the empty string is `Empty`; a lone sign is
   * `InvalidDigit`; one leading `+` is skipped; then the digit loop.
   */
  function ParseUsize(s: string): (r: Result<nat, ParseIntError>)
    ensures r.Ok? ==> r.value < USIZE_LIMIT
    ensures r.Err? && r.error == Empty <==> s == []
  {
    if s == [] then Err(Empty)
    else if (s[0] == '+' || s[0] == '-') && |s| == 1 then Err(InvalidDigit)
    else if s[0] == '+' then ScanDigits(0, s[1..])
    else ScanDigits(0, s)
  }

  lemma {:induction false} ScanDigitsSnoc(acc: nat, s: string, d: nat)
    requires acc < USIZE_LIMIT && d < 10
    requires ScanDigits(acc, s).Ok?
    ensures var v := ScanDigits(acc, s).value * 10 + d;
      ScanDigits(acc, s + [DigitChar(d)]) == if v < USIZE_LIMIT then Ok(v) else Err(PosOverflow)
    decreases |s|
  {
    if s != [] {
      var next := acc * 10 + DigitValue(s[0]);
      assert (s + [DigitChar(d)])[1..] == s[1..] + [DigitChar(d)];
      ScanDigitsSnoc(next, s[1..], d);
    }
  }

  /** Displaying a `usize` and parsing the text back gives the same number. */
  lemma {:induction false} ParseNatToString(n: nat)
    requires n < USIZE_LIMIT
    ensures ParseUsize(NatToString(n)) == Ok(n)
  {
    var s := NatToString(n);
    assert s[0] != '+' && s[0] != '-' by { assert IsAsciiDigit(s[0]); }
    if n < 10 {
      assert ScanDigits(0, s) == ScanDigits(n, []);
    } else {
      var t := NatToString(n / 10);
      ParseNatToString(n / 10);
      assert t[0] != '+' && t[0] != '-' by { assert IsAsciiDigit(t[0]); }
      ScanDigitsSnoc(0, t, n % 10);
    }
  }

  // ---------------------------------------------------------------------
  // Ordering of `String` (`Ord for str`, lexicographic by character)

  /** The number a string of decimal digits denotes, without any width limit. */
  function DecimalValue(s: string): nat
    requires AllAsciiDigits(s)
  {
    if s == [] then 0 else DecimalValue(s[..|s| - 1]) * 10 + DigitValue(s[|s| - 1])
  }

  /** Reading back the decimal text of any number gives the number. */
  lemma {:induction false} DecimalValueOf(n: nat)
    ensures DecimalValue(NatToString(n)) == n
  {
    if n >= 10 {
      var s := NatToString(n);
      assert s[..|s| - 1] == NatToString(n / 10);
      DecimalValueOf(n / 10);
    }
  }

  /** Distinct numbers have distinct decimal texts. */
  lemma NatToStringInjective(a: nat, b: nat)
    requires a != b
    ensures NatToString(a) != NatToString(b)
  {
    DecimalValueOf(a);
    DecimalValueOf(b);
  }

  predicate LexLe(a: string, b: string)
  {
    if a == [] then true
    else if b == [] then false
    else if a[0] != b[0] then a[0] < b[0]
    else LexLe(a[1..], b[1..])
  }

  lemma {:induction false} LexLeRefl(s: string)
    ensures LexLe(s, s)
  {
    if s != [] { LexLeRefl(s[1..]); }
  }

  lemma {:induction false} LexLeTotal(a: string, b: string)
    ensures LexLe(a, b) || LexLe(b, a)
  {
    if a != [] && b != [] && a[0] == b[0] { LexLeTotal(a[1..], b[1..]); }
  }

  lemma {:induction false} LexLeAntisymmetric(a: string, b: string)
    requires LexLe(a, b) && LexLe(b, a)
    ensures a == b
  {
    if a != [] && b != [] {
      LexLeAntisymmetric(a[1..], b[1..]);
      assert a == [a[0]] + a[1..] && b == [b[0]] + b[1..];
    }
  }

  lemma {:induction false} LexLeTrans(a: string, b: string, c: string)
    requires LexLe(a, b) && LexLe(b, c)
    ensures LexLe(a, c)
  {
    if a != [] && b != [] && c != [] && a[0] == b[0] && b[0] == c[0] {
      LexLeTrans(a[1..], b[1..], c[1..]);
    }
  }
}
