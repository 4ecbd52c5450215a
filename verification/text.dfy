/** The parts of Rust's `str`, `char` and integer-parsing library that the
    modelled code relies on, written out so that the model's parsers and
    text builders can be stated exactly: `char::is_whitespace`, `trim`,
    `trim_start`, `trim_end`, `lines`, `split_whitespace`, `starts_with`,
    `strip_prefix`, `str::parse` for `u32`/`i32`, `u8::from_str_radix(_, 16)`,
    UTF-8 encoding and the `{:N}` / `{:^N}` padding of `format!`. */
module Text {
  import opened Wrappers
  import opened Ints

  /** `char::is_whitespace`: the characters with the Unicode White_Space property. */
  predicate IsWhitespace(c: char) {
    c == ' ' || ('\t' <= c <= '\r') || c == '\U{0085}' || c == '\U{00A0}' || c == '\U{1680}'
    || ('\U{2000}' <= c <= '\U{200A}') || c == '\U{2028}' || c == '\U{2029}'
    || c == '\U{202F}' || c == '\U{205F}' || c == '\U{3000}'
  }

  predicate AllWhitespace(s: string) {
    forall i :: 0 <= i < |s| ==> IsWhitespace(s[i])
  }

  /** `str::trim_end`: the longest prefix of `s` that does not end in whitespace. */
  function TrimEnd(s: string): (r: string)
    ensures |r| <= |s| && r == s[..|r|]
    ensures AllWhitespace(s[|r|..])
    ensures r == [] || !IsWhitespace(r[|r| - 1])
  {
    if s != [] && IsWhitespace(s[|s| - 1]) then
      var init := s[..|s| - 1];
      var r := TrimEnd(init);
      assert init[..|r|] == s[..|r|];
      assert s[|r|..] == init[|r|..] + [s[|s| - 1]];
      assert AllWhitespace(init[|r|..]);
      r
    else s
  }

  /** `str::trim_start`: the longest suffix of `s` that does not start with whitespace. */
  function TrimStart(s: string): (r: string)
    ensures |r| <= |s| && r == s[|s| - |r|..]
    ensures AllWhitespace(s[..|s| - |r|])
    ensures r == [] || !IsWhitespace(r[0])
  {
    if s != [] && IsWhitespace(s[0]) then
      var r := TrimStart(s[1..]);
      assert s[..|s| - |r|] == [s[0]] + s[1..][..|s[1..]| - |r|];
      r
    else s
  }

  /** `str::trim`. */
  function Trim(s: string): string {
    TrimStart(TrimEnd(s))
  }

  /** `str::starts_with` for a string pattern. */
  predicate StartsWith(s: string, prefix: string) {
    |prefix| <= |s| && s[..|prefix|] == prefix
  }

  /** `str::strip_prefix`. */
  function StripPrefix(s: string, prefix: string): (r: Option<string>)
    ensures r.Some? <==> StartsWith(s, prefix)
    ensures r.Some? ==> s == prefix + r.value
  {
    if StartsWith(s, prefix) then Some(s[|prefix|..]) else None
  }

  /** Index of the first occurrence of `c` in `s`, or `|s|` when there is none. */
  function IndexOf(s: string, c: char): (k: nat)
    ensures k <= |s|
    ensures k < |s| ==> s[k] == c
    ensures forall i :: 0 <= i < k ==> s[i] != c
  {
    if s == [] then 0
    else if s[0] == c then 0
    else 1 + IndexOf(s[1..], c)
  }

  /** Index of the first whitespace character of `s`, or `|s|`. */
  function FirstWhitespace(s: string): (k: nat)
    ensures k <= |s|
    ensures k < |s| ==> IsWhitespace(s[k])
    ensures forall i :: 0 <= i < k ==> !IsWhitespace(s[i])
  {
    if s == [] then 0
    else if IsWhitespace(s[0]) then 0
    else 1 + FirstWhitespace(s[1..])
  }

  /** `str::lines`: split at '\n', dropping one '\r' that precedes a '\n';
      a final line ending does not start an extra, empty line. */
  function Lines(s: string): seq<string>
    decreases |s|
  {
    if s == [] then []
    else
      var k := IndexOf(s, '\n');
      if k == |s| then [s]
      else
        var line := s[..k];
        var line' := if line != [] && line[|line| - 1] == '\r' then line[..|line| - 1] else line;
        [line'] + Lines(s[k + 1..])
  }

  /** `str::split_whitespace`: the maximal runs of non-whitespace characters. */
  function SplitWhitespace(s: string): (r: seq<string>)
    ensures forall i :: 0 <= i < |r| ==> r[i] != []
    decreases |s|
  {
    var t := TrimStart(s);
    if t == [] then []
    else
      var k := FirstWhitespace(t);
      [t[..k]] + SplitWhitespace(t[k..])
  }

  predicate IsDigit(c: char) {
    '0' <= c <= '9'
  }

  function DigitValue(c: char): nat
    requires IsDigit(c)
  {
    (c as int) - ('0' as int)
  }

  /** The decimal value of a string of ASCII digits. */
  function DecimalValue(s: string): nat
    requires forall i :: 0 <= i < |s| ==> IsDigit(s[i])
  {
    if s == [] then 0 else 10 * DecimalValue(s[..|s| - 1]) + DigitValue(s[|s| - 1])
  }

  /** The digits-and-range part of Rust's integer `from_str`: `digits` must be a
      non-empty run of ASCII digits whose value does not exceed `max`. */
  function ParseDigits(digits: string, max: nat): (r: Option<nat>)
    ensures r.Some? ==> r.value <= max
  {
    if digits != [] && (forall i :: 0 <= i < |digits| ==> IsDigit(digits[i]))
       && DecimalValue(digits) <= max
    then Some(DecimalValue(digits))
    else None
  }

  /** `str::parse::<u32>()`: an optional '+' and then decimal digits, at most
      `u32::MAX`; anything else (including "" and a lone "+") is an error. */
  function ParseU32(s: string): (r: Option<nat>)
    ensures r.Some? ==> r.value <= U32_MAX
  {
    if s == [] then None
    else if s[0] == '+' then (if |s| == 1 then None else ParseDigits(s[1..], U32_MAX))
    else ParseDigits(s, U32_MAX)
  }

  /** `str::parse::<i32>()`: an optional '+' or '-' and then decimal digits,
      within `i32::MIN ..= i32::MAX`. */
  function ParseI32(s: string): (r: Option<int>)
    ensures r.Some? ==> I32_MIN <= r.value <= I32_MAX
  {
    if s == [] then None
    else if (s[0] == '+' || s[0] == '-') && |s| == 1 then None
    else if s[0] == '+' then
      match ParseDigits(s[1..], I32_MAX)
      case Some(v) => Some(v as int)
      case None => None
    else if s[0] == '-' then
      match ParseDigits(s[1..], -I32_MIN)
      case Some(v) => Some(-(v as int))
      case None => None
    else
      match ParseDigits(s, I32_MAX)
      case Some(v) => Some(v as int)
      case None => None
  }

  predicate IsHexDigit(c: char) {
    ('0' <= c <= '9') || ('a' <= c <= 'f') || ('A' <= c <= 'F')
  }

  function HexValue(c: char): (v: nat)
    requires IsHexDigit(c)
    ensures v < 16
  {
    if '0' <= c <= '9' then (c as int) - ('0' as int)
    else if 'a' <= c <= 'f' then (c as int) - ('a' as int) + 10
    else (c as int) - ('A' as int) + 10
  }

  /** `u8::from_str_radix(&format!("{}{}", hi, lo), 16)`: two hex digits, or a
      '+' sign followed by one hex digit (the radix parser accepts a leading
      '+' on unsigned types). */
  function ParseHexPair(hi: char, lo: char): (r: Option<byte>)
    ensures r.Some? <==> (IsHexDigit(hi) && IsHexDigit(lo)) || (hi == '+' && IsHexDigit(lo))
    ensures IsHexDigit(hi) && IsHexDigit(lo) ==> r == Some(16 * HexValue(hi) + HexValue(lo))
  {
    if IsHexDigit(hi) && IsHexDigit(lo) then Some(16 * HexValue(hi) + HexValue(lo))
    else if hi == '+' && IsHexDigit(lo) then Some(HexValue(lo))
    else None
  }

  /** The UTF-8 encoding of one Unicode scalar value. */
  function Utf8(c: char): (r: seq<byte>)
    ensures 1 <= |r| <= 4
    ensures |r| == 1 <==> (c as int) < 0x80
    ensures |r| == 1 ==> r[0] == c as int
  {
    var n := c as int;
    if n < 0x80 then [n]
    else if n < 0x800 then [0xC0 + n / 64, 0x80 + n % 64]
    else if n < 0x1_0000 then [0xE0 + n / 4096, 0x80 + (n / 64) % 64, 0x80 + n % 64]
    else [0xF0 + n / 262144, 0x80 + (n / 4096) % 64, 0x80 + (n / 64) % 64, 0x80 + n % 64]
  }

  /** The UTF-8 encoding of a string (`str::as_bytes`). */
  function Utf8Str(s: string): (r: seq<byte>)
    ensures |r| >= |s|
  {
    if s == [] then [] else Utf8Str(s[..|s| - 1]) + Utf8(s[|s| - 1])
  }

  /** `n` copies of `c`, Rust's `c.to_string().repeat(n)`. */
  function Repeat(c: char, n: nat): (r: string)
    ensures |r| == n && forall i :: 0 <= i < n ==> r[i] == c
  {
    if n == 0 then [] else Repeat(c, n - 1) + [c]
  }

  /** `format!("{:w}", s)`: left-aligned, padded with spaces to `w` characters. */
  function PadRight(s: string, w: nat): (r: string)
    ensures |r| == if |s| < w then w else |s|
    ensures r[..|s|] == s
  {
    if |s| < w then s + Repeat(' ', w - |s|) else s
  }

  /** `format!("{:^w}", s)`: centred, the odd space going to the right. */
  function Center(s: string, w: nat): (r: string)
    ensures |r| == if |s| < w then w else |s|
  {
    if |s| < w then
      var pad := w - |s|;
      Repeat(' ', pad / 2) + s + Repeat(' ', pad - pad / 2)
    else s
  }

  /** Decimal rendering of a natural number, `format!("{}", n)`. */
  function NatToString(n: nat): (r: string)
    ensures r != []
    decreases n
  {
    if n < 10 then [(('0' as int) + n) as char]
    else NatToString(n / 10) + [(('0' as int) + n % 10) as char]
  }

  // ---------------------------------------------------------------------
  // Reading fixed text: trimming, prefixes, words and small numbers

  /** Text that neither starts nor ends with whitespace is its own trim. */
  lemma TrimEnds(s: string)
    requires s != [] && !IsWhitespace(s[0]) && !IsWhitespace(s[|s| - 1])
    ensures Trim(s) == s
  {
  }

  /** One differing character rules a prefix out. */
  lemma NotStartsWith(s: string, prefix: string, k: nat)
    requires k < |prefix| && (k < |s| ==> s[k] != prefix[k])
    ensures !StartsWith(s, prefix)
  {
    if |prefix| <= |s| {
      assert s[..|prefix|][k] == s[k];
    }
  }

  /** The first word of `s` ends at the whitespace at `k`; the rest of the
      words come from what follows it. */
  lemma SplitWord(s: string, k: nat)
    requires 0 < k < |s| && IsWhitespace(s[k])
    requires forall i :: 0 <= i < k ==> !IsWhitespace(s[i])
    ensures SplitWhitespace(s) == [s[..k]] + SplitWhitespace(s[k + 1..])
  {
    assert TrimStart(s) == s;
    assert FirstWhitespace(s) == k;
    SplitAt(s, k);
    assert s[k..][1..] == s[k + 1..];
    SplitSkip(s[k..]);
  }

  lemma SplitAt(s: string, k: nat)
    requires s != [] && TrimStart(s) == s && FirstWhitespace(s) == k
    ensures SplitWhitespace(s) == [s[..k]] + SplitWhitespace(s[k..])
  {
  }

  /** Leading whitespace does not start a word. */
  lemma SplitSkip(s: string)
    requires s != [] && IsWhitespace(s[0])
    ensures SplitWhitespace(s) == SplitWhitespace(s[1..])
  {
    assert TrimStart(s) == TrimStart(s[1..]);
  }

  /** A word: non-empty text without whitespace. */
  predicate Word(w: string) {
    w != [] && forall i :: 0 <= i < |w| ==> !IsWhitespace(w[i])
  }

  /** A single word splits into itself. */
  lemma SplitLastWord(s: string)
    requires Word(s)
    ensures SplitWhitespace(s) == [s]
  {
    assert TrimStart(s) == s;
    assert FirstWhitespace(s) == |s|;
    SplitOneWord(s);
  }

  /** A word and a space in front of the rest give that word first. */
  lemma SplitFirst(w: string, rest: string)
    requires Word(w)
    ensures SplitWhitespace(w + " " + rest) == [w] + SplitWhitespace(rest)
  {
    var s := w + " " + rest;
    SplitWord(s, |w|);
    assert s[..|w|] == w && s[|w| + 1..] == rest;
  }

  lemma SplitTwo(a: string, b: string)
    requires Word(a) && Word(b)
    ensures SplitWhitespace(a + " " + b) == [a, b]
  {
    SplitFirst(a, b);
    SplitLastWord(b);
  }

  lemma SplitThree(a: string, b: string, c: string)
    requires Word(a) && Word(b) && Word(c)
    ensures SplitWhitespace(a + " " + (b + " " + c)) == [a, b, c]
  {
    assert [a] + [b, c] == [a, b, c];
    SplitFirst(a, b + " " + c);
    SplitTwo(b, c);
  }

  lemma SplitFour(a: string, b: string, c: string, d: string)
    requires Word(a) && Word(b) && Word(c) && Word(d)
    ensures SplitWhitespace(a + " " + (b + " " + (c + " " + d))) == [a, b, c, d]
  {
    assert [a] + [b, c, d] == [a, b, c, d];
    SplitFirst(a, b + " " + (c + " " + d));
    SplitThree(b, c, d);
  }

  lemma SplitOneWord(s: string)
    requires s != [] && TrimStart(s) == s && FirstWhitespace(s) == |s|
    ensures SplitWhitespace(s) == [s]
  {
    assert s[..|s|] == s;
    SplitEmpty(s[|s|..]);
  }

  lemma SplitEmpty(s: string)
    requires s == []
    ensures SplitWhitespace(s) == []
  {
  }

  /** One or two decimal digits parse as a `u32` and as an `i32`, and after a
      minus sign as the negated `i32`. */
  lemma ParseSmall(s: string)
    requires 1 <= |s| <= 2 && forall i :: 0 <= i < |s| ==> IsDigit(s[i])
    ensures var v := if |s| == 1 then DigitValue(s[0]) else 10 * DigitValue(s[0]) + DigitValue(s[1]);
            ParseU32(s) == Some(v) && ParseI32(s) == Some(v) && ParseI32(['-'] + s) == Some(-v)
  {
    var v := if |s| == 1 then DigitValue(s[0]) else 10 * DigitValue(s[0]) + DigitValue(s[1]);
    var first := [s[0]];
    assert first[..0] == [];
    assert DecimalValue(first) == DigitValue(s[0]);
    if |s| == 2 {
      assert s[..1] == first;
    } else {
      assert s == first;
    }
    assert DecimalValue(s) == v;
    assert ParseDigits(s, U32_MAX) == Some(v) && ParseDigits(s, I32_MAX) == Some(v);
    assert ParseDigits(s, -I32_MIN) == Some(v);
    assert (['-'] + s)[1..] == s;
  }

  // ---------------------------------------------------------------------
  // Joining lines with newlines, and `str::lines` undoing it

  /** `xs` joined by newlines. */
  function JoinLines(xs: seq<string>): string {
    if xs == [] then []
    else if |xs| == 1 then xs[0]
    else JoinLines(xs[..|xs| - 1]) + ['\n'] + xs[|xs| - 1]
  }

  /** Joining one more line puts a newline before it, unless it is the first. */
  lemma JoinAppend(xs: seq<string>, line: string)
    ensures JoinLines(xs + [line]) == if xs == [] then line else JoinLines(xs) + ['\n'] + line
  {
    assert (xs + [line])[..|xs|] == xs;
  }

  /** No character of `t` is a line break. */
  predicate NoBreakChars(t: string) {
    forall j :: 0 <= j < |t| ==> t[j] != '\n' && t[j] != '\r'
  }

  /** No line of `xs` holds a line break character. */
  predicate NoBreaks(xs: seq<string>) {
    forall i :: 0 <= i < |xs| ==> NoBreakChars(xs[i])
  }

  /** The lines `str::lines` sees in a join: an empty last line leaves no
      trace, the text then ending in the newline before it. */
  function DropEmptyLast(xs: seq<string>): seq<string> {
    if xs != [] && xs[|xs| - 1] == [] then xs[..|xs| - 1] else xs
  }

  /** `str::lines` undoes the newline join, except for an empty last line. */
  lemma {:induction false} LinesOfJoin(xs: seq<string>)
    requires xs != [] && NoBreaks(xs)
    ensures Lines(JoinLines(xs)) == DropEmptyLast(xs)
  {
    if |xs| == 1 {
      LinesSingle(xs[0]);
    } else {
      var rest := xs[1..];
      JoinFront(xs);
      NoBreaksTail(xs);
      LinesCons(xs[0], JoinLines(rest));
      LinesOfJoin(rest);
      DropEmptyLastCons(xs);
    }
  }

  lemma DropEmptyLastCons(xs: seq<string>)
    requires |xs| >= 2
    ensures DropEmptyLast(xs) == [xs[0]] + DropEmptyLast(xs[1..])
  {
    if xs[|xs| - 1] == [] {
      assert [xs[0]] + xs[1..][..|xs| - 2] == xs[..|xs| - 1];
    } else {
      assert [xs[0]] + xs[1..] == xs;
    }
  }

  /** Lines without breaks stay so when lists of them are joined. */
  lemma NoBreaksCat(a: seq<string>, b: seq<string>)
    requires NoBreaks(a) && NoBreaks(b)
    ensures NoBreaks(a + b)
  {
    forall i | 0 <= i < |a + b|
      ensures NoBreakChars((a + b)[i])
    {
      if i < |a| {
        assert (a + b)[i] == a[i];
      } else {
        assert (a + b)[i] == b[i - |a|];
      }
    }
  }

  lemma NoBreakCharsCat(a: string, b: string)
    requires NoBreakChars(a) && NoBreakChars(b)
    ensures NoBreakChars(a + b)
  {
    forall j | 0 <= j < |a + b|
      ensures (a + b)[j] != '\n' && (a + b)[j] != '\r'
    {
      if j < |a| {
        assert (a + b)[j] == a[j];
      } else {
        assert (a + b)[j] == b[j - |a|];
      }
    }
  }

  lemma NoBreaksTail(xs: seq<string>)
    requires xs != [] && NoBreaks(xs)
    ensures NoBreaks(xs[1..]) && NoBreakChars(xs[0])
  {
    var rest := xs[1..];
    forall i | 0 <= i < |rest|
      ensures NoBreakChars(rest[i])
    {
      assert rest[i] == xs[i + 1];
    }
  }

  /** A line without breaks is one line, or none when it is empty. */
  lemma LinesSingle(a: string)
    requires forall j :: 0 <= j < |a| ==> a[j] != '\n'
    ensures Lines(a) == if a == [] then [] else [a]
  {
    if a != [] {
      assert IndexOf(a, '\n') == |a|;
    }
  }

  /** A line without breaks, a newline, then more text: the line comes first. */
  lemma LinesCons(a: string, t: string)
    requires NoBreakChars(a)
    ensures Lines(a + ['\n'] + t) == [a] + Lines(t)
  {
    var s := a + ['\n'] + t;
    IndexOfAfter(a, t);
    assert s[..|a|] == a;
    assert s[|a| + 1..] == t;
  }

  /** Joining `[a] + rest` puts `a` and a newline before the join of `rest`. */
  lemma {:induction false} JoinFront(xs: seq<string>)
    requires |xs| >= 2
    ensures JoinLines(xs) == xs[0] + ['\n'] + JoinLines(xs[1..])
  {
    if |xs| > 2 {
      var init := xs[..|xs| - 1];
      JoinFront(init);
      assert init[1..] == xs[1..][..|xs[1..]| - 1];
    } else {
      assert xs[1..] == [xs[1]];
    }
  }

  lemma {:induction false} IndexOfAfter(a: string, t: string)
    requires forall j :: 0 <= j < |a| ==> a[j] != '\n'
    ensures IndexOf(a + ['\n'] + t, '\n') == |a|
  {
    if a != [] {
      assert (a + ['\n'] + t)[1..] == a[1..] + ['\n'] + t;
      IndexOfAfter(a[1..], t);
    }
  }
}
