/** The string primitives of .NET and JavaScript that the analyzer and the detector rely on,
    written out over `seq<char>`: Trim, Split, IndexOf, case-insensitive prefix tests,
    lower-casing, substring search and `int.TryParse`. */
module Text {
  import opened Wrappers

  // ------------------------------------------------------------------ white space and Trim

  /** .NET `char.IsWhiteSpace`: the characters `String.Trim()` removes. */
  predicate IsWhiteSpace(c: char)
    ensures c == ' ' || c == '\t' || c == '\n' || c == '\r' ==> IsWhiteSpace(c)
    ensures IsWhiteSpace(c) ==> !IsDigit(c) && c != ':' && c != ',' && c != '-' && c != '+'
    ensures IsWhiteSpace(c) ==> !('A' <= c <= 'Z' || 'a' <= c <= 'z')
  {
    || c == ' ' || '\t' <= c <= '\r'
    || c == '\U{85}' || c == '\U{A0}' || c == '\U{1680}'
    || '\U{2000}' <= c <= '\U{200A}'
    || c == '\U{2028}' || c == '\U{2029}' || c == '\U{202F}' || c == '\U{205F}' || c == '\U{3000}'
  }

  /** The number of white-space characters `s` starts with. */
  function LeadingBlanks(s: string): (n: nat)
    ensures n <= |s|
    ensures forall i :: 0 <= i < n ==> IsWhiteSpace(s[i])
    ensures n == |s| || !IsWhiteSpace(s[n])
  {
    if s == [] || !IsWhiteSpace(s[0]) then 0 else 1 + LeadingBlanks(s[1..])
  }

  /** Where the text of `s` ends: everything from there on is white space. */
  function ContentEnd(s: string): (e: nat)
    ensures e <= |s|
    ensures forall i :: e <= i < |s| ==> IsWhiteSpace(s[i])
    ensures e == 0 || !IsWhiteSpace(s[e - 1])
  {
    if s == [] || !IsWhiteSpace(s[|s| - 1]) then |s| else ContentEnd(s[..|s| - 1])
  }

  /** .NET `String.Trim()`: the text between the leading and the trailing white space. */
  function Trim(s: string): (r: string)
    ensures r == [] || (!IsWhiteSpace(r[0]) && !IsWhiteSpace(r[|r| - 1]))
    ensures forall c :: c in r ==> c in s
    ensures s == [] || (!IsWhiteSpace(s[0]) && !IsWhiteSpace(s[|s| - 1])) ==> r == s
    ensures r == [] <==> forall i :: 0 <= i < |s| ==> IsWhiteSpace(s[i])
    ensures r == [] || r == s[LeadingBlanks(s)..ContentEnd(s)]
  {
    var b := LeadingBlanks(s);
    var e := ContentEnd(s);
    if e <= b then
      []
    else
      var r := s[b..e];
      assert forall c :: c in r ==> c in s by {
        assert forall i :: 0 <= i < |r| ==> r[i] == s[b + i];
      }
      r
  }

  // ------------------------------------------------------------------ Split and Join

  /** .NET `String.Split` on single-character separators, keeping empty pieces:
      `n` separators give `n + 1` pieces. */
  function Split(s: string, seps: set<char>): (r: seq<string>)
    ensures |r| >= 1
    ensures forall p, c :: p in r && c in p ==> c !in seps
    ensures r[0] == [] <==> s == [] || s[0] in seps
    ensures |r| >= 2 <==> exists i :: 0 <= i < |s| && s[i] in seps
  {
    if s == [] then [""]
    else
      var rest := Split(s[1..], seps);
      assert forall i :: 0 <= i < |s| - 1 ==> s[1..][i] == s[i + 1];
      if s[0] in seps then [""] + rest
      else [[s[0]] + rest[0]] + rest[1..]
  }

  /** Puts the pieces back together with `sep` between neighbours (.NET `String.Join`). */
  function Join(pieces: seq<string>, sep: char): string
    requires |pieces| >= 1
  {
    if |pieces| == 1 then pieces[0] else pieces[0] + [sep] + Join(pieces[1..], sep)
  }

  /** Splitting loses nothing: joining the pieces with the separator gives the input back. */
  lemma {:induction false} JoinSplit(s: string, sep: char)
    ensures Join(Split(s, {sep}), sep) == s
  {
    if s != [] {
      var rest := Split(s[1..], {sep});
      JoinSplit(s[1..], sep);
      if s[0] != sep && |rest| > 1 {
        assert ([[s[0]] + rest[0]] + rest[1..])[1..] == rest[1..];
      }
    }
  }

  /** A string without separators is its own single piece. */
  lemma {:induction false} SplitWithoutSeparator(s: string, seps: set<char>)
    requires forall i :: 0 <= i < |s| ==> s[i] !in seps
    ensures Split(s, seps) == [s]
  {
    if s != [] {
      SplitWithoutSeparator(s[1..], seps);
      assert [s[0]] + s[1..] == s;
    }
  }

  /** The first piece is everything before the first separator. */
  lemma {:induction false} FirstPiece(s: string, seps: set<char>, j: nat)
    requires j <= |s| && (j == |s| || s[j] in seps)
    requires forall k :: 0 <= k < j ==> s[k] !in seps
    ensures Split(s, seps)[0] == s[..j]
  {
    if j > 0 {
      FirstPiece(s[1..], seps, j - 1);
    }
  }

  /** Cutting at the first separator: the pieces are the text before it, then the pieces of the rest. */
  lemma {:induction false} SplitAtFirst(s: string, seps: set<char>, i: nat)
    requires i < |s| && s[i] in seps
    requires forall k :: 0 <= k < i ==> s[k] !in seps
    ensures Split(s, seps) == [s[..i]] + Split(s[i + 1..], seps)
  {
    if i > 0 {
      SplitAtFirst(s[1..], seps, i - 1);
      assert s[1..][i..] == s[i + 1..];
      assert [s[0]] + s[1..][..i - 1] == s[..i];
    }
  }

  /** `s.Split(sep)[1]` is the text strictly between the first separator (at `i`) and the
      second one (at `j`), or the end of `s` when there is no second one. */
  lemma SecondPiece(s: string, sep: char, i: nat, j: nat)
    requires i < j <= |s| && s[i] == sep && (j == |s| || s[j] == sep)
    requires forall k :: 0 <= k < j && k != i ==> s[k] != sep
    ensures |Split(s, {sep})| >= 2 && Split(s, {sep})[1] == s[i + 1..j]
  {
    SplitAtFirst(s, {sep}, i);
    FirstPiece(s[i + 1..], {sep}, j - i - 1);
    assert s[i + 1..][..j - i - 1] == s[i + 1..j];
  }

  /** The pieces that are not empty, in order (`StringSplitOptions.RemoveEmptyEntries`). */
  function RemoveEmpty(pieces: seq<string>): (r: seq<string>)
    ensures |r| <= |pieces|
    ensures forall p :: p in r <==> p in pieces && p != []
  {
    if pieces == [] then []
    else (if pieces[0] == [] then [] else [pieces[0]]) + RemoveEmpty(pieces[1..])
  }

  /** Dropping the empty pieces keeps the others in order and with their multiplicity: it works
      piece by piece. */
  lemma {:induction false} RemoveEmptyAppend(a: seq<string>, b: seq<string>)
    ensures RemoveEmpty(a + b) == RemoveEmpty(a) + RemoveEmpty(b)
  {
    if a != [] {
      RemoveEmptyAppend(a[1..], b);
      assert (a + b)[0] == a[0] && (a + b)[1..] == a[1..] + b;
      var head: seq<string> := if a[0] == [] then [] else [a[0]];
      assert RemoveEmpty(a + b) == head + RemoveEmpty(a[1..] + b);
      assert RemoveEmpty(a) == head + RemoveEmpty(a[1..]);
    } else {
      assert a + b == b;
    }
  }

  /** A single piece is kept exactly when it is not empty. */
  lemma RemoveEmptySingle(p: string)
    ensures RemoveEmpty([p]) == if p == [] then [] else [p]
  {
    var one: seq<string> := [p];
    assert one[1..] == [];
  }

  // ------------------------------------------------------------------ counting words

  /** The number of positions where a run of non-separator characters ends: the words of `s`,
      counted without splitting. */
  function WordEnds(s: string, seps: set<char>): nat
  {
    if s == [] then 0
    else (if s[0] !in seps && (|s| == 1 || s[1] in seps) then 1 else 0) + WordEnds(s[1..], seps)
  }

  /** Splitting and dropping the empty pieces counts the words. */
  lemma {:induction false} SplitCountsWords(s: string, seps: set<char>)
    ensures |RemoveEmpty(Split(s, seps))| == WordEnds(s, seps)
  {
    if s != [] {
      var rest := Split(s[1..], seps);
      SplitCountsWords(s[1..], seps);
      if s[0] in seps {
        assert ([""] + rest)[1..] == rest;
      } else {
        var pieces := [[s[0]] + rest[0]] + rest[1..];
        assert pieces[1..] == rest[1..];
        assert |RemoveEmpty(rest)| == (if rest[0] == [] then 0 else 1) + |RemoveEmpty(rest[1..])|;
      }
    }
  }

  /** A string of `n` characters holds at most `(n + 1) / 2` words. */
  lemma {:induction false} WordEndsBound(s: string, seps: set<char>)
    ensures WordEnds(s, seps) <= (|s| + 1) / 2
  {
    if |s| >= 2 {
      if s[0] !in seps && s[1] in seps {
        WordEndsBound(s[2..], seps);
        assert s[1..][1..] == s[2..];
      } else {
        WordEndsBound(s[1..], seps);
      }
    } else if |s| == 1 {
      WordEndsBound(s[1..], seps);
    }
  }

  /** A word followed by nothing or by a separator adds exactly one to the count. */
  lemma {:induction false} WordThenSeparator(u: string, v: string, seps: set<char>)
    requires u != [] && forall i :: 0 <= i < |u| ==> u[i] !in seps
    requires v == [] || v[0] in seps
    ensures WordEnds(u + v, seps) == 1 + WordEnds(v, seps)
  {
    if |u| > 1 {
      WordThenSeparator(u[1..], v, seps);
      assert (u + v)[1..] == u[1..] + v;
    } else {
      assert (u + v)[1..] == v;
    }
  }

  // ------------------------------------------------------------------ case and search

  /** ASCII lower-casing of one character. */
  function LowerAscii(c: char): char
  {
    if 'A' <= c <= 'Z' then (c as int + 32) as char else c
  }

  /** Lower-cases the ASCII letters of `s`, character by character. */
  function ToLowerAscii(s: string): (r: string)
    ensures |r| == |s|
    ensures forall i :: 0 <= i < |s| ==> r[i] == LowerAscii(s[i])
  {
    seq(|s|, i requires 0 <= i < |s| => LowerAscii(s[i]))
  }

  /** .NET `s.StartsWith(prefix, StringComparison.OrdinalIgnoreCase)` on ASCII letters. */
  predicate StartsWithIgnoreCase(s: string, prefix: string)
    ensures StartsWithIgnoreCase(s, prefix) ==> |prefix| <= |s|
    ensures prefix == [] ==> StartsWithIgnoreCase(s, prefix)
  {
    |prefix| <= |s| && ToLowerAscii(s[..|prefix|]) == ToLowerAscii(prefix)
  }

  /** The test compares character by character, letter case aside. */
  lemma StartsWithIgnoreCaseCharwise(s: string, prefix: string)
    ensures StartsWithIgnoreCase(s, prefix) <==>
      |prefix| <= |s| && forall i :: 0 <= i < |prefix| ==> LowerAscii(s[i]) == LowerAscii(prefix[i])
  {
    if |prefix| <= |s| {
      var a, b := ToLowerAscii(s[..|prefix|]), ToLowerAscii(prefix);
      if forall i :: 0 <= i < |prefix| ==> LowerAscii(s[i]) == LowerAscii(prefix[i]) {
        assert forall i :: 0 <= i < |prefix| ==> a[i] == b[i];
      }
    }
  }

  /** The test ignores the letter case of the tested text. */
  lemma StartsWithIgnoreCaseIgnoresCase(s: string, prefix: string)
    ensures StartsWithIgnoreCase(ToLowerAscii(s), prefix) <==> StartsWithIgnoreCase(s, prefix)
  {
    if |prefix| <= |s| {
      assert ToLowerAscii(ToLowerAscii(s)[..|prefix|]) == ToLowerAscii(s[..|prefix|]);
    }
  }

  /** A text that starts with the prefix exactly passes the test. */
  lemma ExactPrefixMatches(s: string, prefix: string)
    requires |prefix| <= |s| && s[..|prefix|] == prefix
    ensures StartsWithIgnoreCase(s, prefix)
  {
  }

  /** `pat` occurs in `s` starting at index `i`. */
  predicate OccursAt(s: string, pat: string, i: int)
  {
    0 <= i && i + |pat| <= |s| && s[i..i + |pat|] == pat
  }

  /** .NET `s.IndexOf(pat, start)`: the first index at or after `start` where `pat` occurs, or -1. */
  function IndexOf(s: string, pat: string, start: nat): (r: int)
    requires start <= |s|
    ensures r == -1 || (start <= r && OccursAt(s, pat, r))
    ensures forall i :: start <= i && (r == -1 || i < r) ==> !OccursAt(s, pat, i)
    decreases |s| - start
  {
    if start + |pat| > |s| then -1
    else if s[start..start + |pat|] == pat then start
    else IndexOf(s, pat, start + 1)
  }

  /** JavaScript `s.includes(pat)`. */
  function Contains(s: string, pat: string): (b: bool)
    ensures b <==> exists i :: OccursAt(s, pat, i)
  {
    IndexOf(s, pat, 0) >= 0
  }

  // ------------------------------------------------------------------ integers

  const Int32Min: int := -0x8000_0000
  const Int32Max: int := 0x7FFF_FFFF

  predicate IsDigit(c: char) { '0' <= c <= '9' }

  predicate AllDigits(s: string) { forall i :: 0 <= i < |s| ==> IsDigit(s[i]) }

  /** The value of a decimal numeral, read left to right. */
  function DigitsValue(ds: string): nat
    requires AllDigits(ds)
    decreases |ds|
  {
    if ds == [] then 0 else DigitsValue(ds[..|ds| - 1]) * 10 + (ds[|ds| - 1] as int - '0' as int)
  }

  /** .NET `int.TryParse` applied to text that has already been trimmed: an optional sign, one or
      more ASCII digits, and a value that fits a 32-bit `int`; anything else fails. */
  function TryParseInt(s: string): (r: Option<int>)
    ensures r.Some? ==> Int32Min <= r.value <= Int32Max
    ensures r.Some? ==> s != [] && IsDigit(s[|s| - 1])
    ensures r.Some? ==> AllDigits(s) || (|s| >= 2 && (s[0] == '-' || s[0] == '+') && AllDigits(s[1..]))
    ensures s != [] && AllDigits(s) ==>
      r == if DigitsValue(s) <= Int32Max then Some(DigitsValue(s)) else None
    ensures |s| >= 2 && s[0] == '+' && AllDigits(s[1..]) ==>
      r == if DigitsValue(s[1..]) <= Int32Max then Some(DigitsValue(s[1..])) else None
    ensures |s| >= 2 && s[0] == '-' && AllDigits(s[1..]) ==>
      r == if DigitsValue(s[1..]) <= -Int32Min then Some(-(DigitsValue(s[1..]) as int)) else None
  {
    var digits := if |s| > 0 && (s[0] == '-' || s[0] == '+') then s[1..] else s;
    if digits == [] || !AllDigits(digits) then None
    else
      var v: int := if s[0] == '-' then -(DigitsValue(digits) as int) else DigitsValue(digits);
      if Int32Min <= v <= Int32Max then Some(v) else None
  }

  /** The decimal numeral of `n`, without leading zeros. */
  function Numeral(n: nat): (r: string)
    ensures r != [] && AllDigits(r)
  {
    var d := ((n % 10) + '0' as int) as char;
    if n < 10 then [d] else Numeral(n / 10) + [d]
  }

  /** C# `Int32.ToString()`: a minus sign for negative values, then the numeral. */
  function FormatInt(v: int): string
  {
    if v < 0 then "-" + Numeral(-v) else Numeral(v)
  }

  lemma {:induction false} NumeralValue(n: nat)
    ensures DigitsValue(Numeral(n)) == n
  {
    if n >= 10 {
      NumeralValue(n / 10);
      var ds := Numeral(n);
      assert ds[..|ds| - 1] == Numeral(n / 10);
    }
  }

  /** Trimming one leading space off a text that has no white space at its ends. */
  lemma TrimLeadingSpace(s: string)
    requires s != [] && !IsWhiteSpace(s[0]) && !IsWhiteSpace(s[|s| - 1])
    ensures Trim([' '] + s) == s
  {
    var t := [' '] + s;
    assert t[1..] == s;
    assert LeadingBlanks(t) == 1 + LeadingBlanks(s) == 1;
    assert ContentEnd(t) == |t|;
    assert t[1..|t|] == s;
  }

  /** A formatted integer is a non-empty run of digits with at most a leading minus sign. */
  lemma FormatIntShape(v: int)
    ensures var num := FormatInt(v);
      && num != [] && IsDigit(num[|num| - 1])
      && forall i :: 0 <= i < |num| ==> IsDigit(num[i]) || num[i] == '-'
  {
  }

  /** Parsing what `FormatInt` prints gives the value back, for every 32-bit value. */
  lemma ParseFormatRoundTrip(v: int)
    requires Int32Min <= v <= Int32Max
    ensures TryParseInt(FormatInt(v)) == Some(v)
  {
    if v < 0 {
      NumeralValue(-v);
      assert FormatInt(v)[1..] == Numeral(-v);
    } else {
      NumeralValue(v);
    }
  }
}
