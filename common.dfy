/** Small value types and string operations shared by the game core and the
    view-models: an Option type, ordinal substring search, splitting and
    trimming, ordinal string comparison and 32-bit integer parsing. They stand
    for the .NET library calls (`string.Split`, `Trim`, `Contains`,
    `IndexOf`, `CompareTo`, `int.TryParse`) that the modelled code uses. */
module Common {

  datatype Option<T> = None | Some(value: T)

  // ---------------------------------------------------------------------------
  // Substrings

  /** `t` occurs in `s` starting at position `i`. */
  predicate ContainsAt(s: string, t: string, i: int)
  {
    0 <= i && i + |t| <= |s| && s[i..i + |t|] == t
  }

  /** Ordinal `string.Contains`. */
  predicate Contains(s: string, t: string)
  {
    exists i | 0 <= i <= |s| :: ContainsAt(s, t, i)
  }

  predicate HasChar(s: string, c: char)
  {
    exists i :: 0 <= i < |s| && s[i] == c
  }

  /** A character-by-character search from position `from`: the first
      position at or after `from` where `t` occurs, or -1. It stands for
      `string.IndexOf(string)`, which in .NET compares with the current
      culture's rules; this search is ordinal. */
  function IndexOfFrom(s: string, t: string, from: nat): (r: int)
    requires from <= |s|
    ensures r == -1 || (from <= r && ContainsAt(s, t, r))
    ensures r == -1 ==> forall j :: from <= j ==> !ContainsAt(s, t, j)
    ensures r >= 0 ==> forall j :: from <= j < r ==> !ContainsAt(s, t, j)
    decreases |s| - from
  {
    if from + |t| > |s| then -1
    else if s[from..from + |t|] == t then from
    else IndexOfFrom(s, t, from + 1)
  }

  /** The ordinal search from the start (`string.IndexOf(string)`, without
      its culture-sensitive comparison). */
  function IndexOf(s: string, t: string): (r: int)
    ensures r == -1 <==> !Contains(s, t)
    ensures r >= 0 ==> ContainsAt(s, t, r) && forall j :: 0 <= j < r ==> !ContainsAt(s, t, j)
  {
    IndexOfFrom(s, t, 0)
  }

  lemma ContainsCharIff(s: string, c: char)
    ensures Contains(s, [c]) <==> HasChar(s, c)
  {
    if HasChar(s, c) {
      var i :| 0 <= i < |s| && s[i] == c;
      assert ContainsAt(s, [c], i);
    }
    if Contains(s, [c]) {
      var i :| 0 <= i <= |s| && ContainsAt(s, [c], i);
      assert s[i..i + 1][0] == s[i];
      assert HasChar(s, c);
    }
  }

  // ---------------------------------------------------------------------------
  // Whitespace and trimming

  /** The characters `char.IsWhiteSpace` accepts among the control, Latin-1 and
      common Unicode space characters. */
  predicate IsWhiteSpace(c: char)
  {
    c == ' ' || ('\t' <= c <= '\r') || c == '\U{0085}' || c == '\U{00A0}'
    || c == '\U{1680}' || ('\U{2000}' <= c <= '\U{200A}') || c == '\U{2028}'
    || c == '\U{2029}' || c == '\U{202F}' || c == '\U{205F}' || c == '\U{3000}'
  }

  predicate IsBlank(s: string)
  {
    forall i :: 0 <= i < |s| ==> IsWhiteSpace(s[i])
  }

  /** `string.TrimStart()`: the longest suffix that does not start with white space. */
  function TrimStart(s: string): (r: string)
    ensures |r| <= |s| && r == s[|s| - |r|..]
    ensures forall k :: 0 <= k < |s| - |r| ==> IsWhiteSpace(s[k])
    ensures r == [] || !IsWhiteSpace(r[0])
  {
    if s == [] || !IsWhiteSpace(s[0]) then s else TrimStart(s[1..])
  }

  /** `string.TrimEnd()`: the longest prefix that does not end with white space. */
  function TrimEnd(s: string): (r: string)
    ensures |r| <= |s| && r == s[..|r|]
    ensures forall k :: |r| <= k < |s| ==> IsWhiteSpace(s[k])
    ensures r == [] || !IsWhiteSpace(r[|r| - 1])
  {
    if s == [] || !IsWhiteSpace(s[|s| - 1]) then s else TrimEnd(s[..|s| - 1])
  }

  /** `string.Trim()`. */
  function Trim(s: string): (r: string)
    ensures |r| <= |s|
    ensures r == [] || (!IsWhiteSpace(r[0]) && !IsWhiteSpace(r[|r| - 1]))
    ensures IsBlank(s) <==> r == []
    ensures forall c :: c in r ==> c in s
  {
    var t := TrimStart(s);
    var r := TrimEnd(t);
    assert r != [] ==> r[0] == t[0];
    assert t == [] ==> IsBlank(s);
    assert r == [] ==> t == [];
    r
  }

  // ---------------------------------------------------------------------------
  // Letter case

  /** Upper-case of a Latin or Cyrillic lower-case letter; every other
      character is kept. */
  function ToUpper(c: char): (u: char)
    ensures c == u || ('a' <= c <= 'z') || ('\U{0430}' <= c <= '\U{044F}') || c == '\U{0451}'
  {
    if 'a' <= c <= 'z' || '\U{0430}' <= c <= '\U{044F}' then (c as int - 32) as char
    else if c == '\U{0451}' then '\U{0401}'
    else c
  }

  /** `GrowFirstLetter`: the string with its first character upper-cased. */
  function GrowFirstLetter(s: string): (r: string)
    ensures |r| == |s|
    ensures |s| > 0 ==> r[0] == ToUpper(s[0]) && r[1..] == s[1..]
  {
    if s == [] then s else [ToUpper(s[0])] + s[1..]
  }

  // ---------------------------------------------------------------------------
  // Splitting

  predicate NoSeparator(w: string, seps: set<char>)
  {
    forall i :: 0 <= i < |w| ==> w[i] !in seps
  }

  /** `string.Split(seps)` keeping empty pieces: the maximal separator-free
      pieces of `s`, in order. */
  function Split(s: string, seps: set<char>): (r: seq<string>)
    ensures |r| >= 1
    ensures forall k :: 0 <= k < |r| ==> NoSeparator(r[k], seps)
  {
    if s == [] then [""]
    else
      var rest := Split(s[1..], seps);
      if s[0] in seps then [""] + rest
      else [[s[0]] + rest[0]] + rest[1..]
  }

  /** Joins pieces with one separator character between neighbours. */
  function JoinWith(ws: seq<string>, c: char): string
    requires |ws| >= 1
  {
    if |ws| == 1 then ws[0] else ws[0] + [c] + JoinWith(ws[1..], c)
  }

  /** Splitting on one character and joining back with it gives the original
      string: no character is lost or invented by `Split`. */
  lemma {:induction false} SplitJoin(s: string, c: char)
    ensures JoinWith(Split(s, {c}), c) == s
  {
    if s != [] {
      var rest := Split(s[1..], {c});
      SplitJoin(s[1..], c);
      if s[0] == c {
        assert Split(s, {c}) == [""] + rest;
        assert ([""] + rest)[1..] == rest;
      } else {
        var r := Split(s, {c});
        assert r == [[s[0]] + rest[0]] + rest[1..];
        if |rest| == 1 {
          assert JoinWith(r, c) == [s[0]] + rest[0];
        } else {
          assert r[1..] == rest[1..];
          assert JoinWith(rest, c) == rest[0] + [c] + JoinWith(rest[1..], c);
          assert JoinWith(r, c) == [s[0]] + rest[0] + [c] + JoinWith(rest[1..], c);
        }
      }
    }
  }

  /** `StringSplitOptions.RemoveEmptyEntries`. */
  function RemoveEmpty(ws: seq<string>): (r: seq<string>)
    ensures forall k :: 0 <= k < |r| ==> r[k] != [] && r[k] in ws
    ensures forall w :: w in ws && w != [] ==> w in r
  {
    if ws == [] then []
    else if ws[0] == [] then RemoveEmpty(ws[1..])
    else [ws[0]] + RemoveEmpty(ws[1..])
  }

  /** `s.Split(seps, StringSplitOptions.RemoveEmptyEntries)`. */
  function SplitNonEmpty(s: string, seps: set<char>): seq<string>
  {
    RemoveEmpty(Split(s, seps))
  }

  /** A string has no non-empty piece exactly when it consists of separators
      only. */
  lemma {:induction false} SplitNonEmptyIsEmpty(s: string, seps: set<char>)
    ensures SplitNonEmpty(s, seps) == [] <==> forall i :: 0 <= i < |s| ==> s[i] in seps
  {
    if s != [] {
      var rest := Split(s[1..], seps);
      SplitNonEmptyIsEmpty(s[1..], seps);
      if s[0] in seps {
        assert Split(s, seps) == [""] + rest;
        assert ([""] + rest)[1..] == rest;
        assert SplitNonEmpty(s, seps) == RemoveEmpty(rest);
        if forall i :: 0 <= i < |s[1..]| ==> s[1..][i] in seps {
          forall i | 0 <= i < |s| ensures s[i] in seps {
            if i > 0 { assert s[i] == s[1..][i - 1]; }
          }
        }
        if forall i :: 0 <= i < |s| ==> s[i] in seps {
          assert forall i :: 0 <= i < |s[1..]| ==> s[1..][i] == s[i + 1];
        }
      } else {
        var r := Split(s, seps);
        assert r[0] == [s[0]] + rest[0];
        assert r[0] in r && r[0] != [];
        assert r[0] in SplitNonEmpty(s, seps);
      }
    } else {
      assert Split(s, seps) == [""];
      assert RemoveEmpty([""]) == RemoveEmpty([""][1..]) == [];
    }
  }

  // ---------------------------------------------------------------------------
  // Ordinal comparison (stands for `string.CompareTo`)

  function Compare(a: string, b: string): (r: int)
    ensures -1 <= r <= 1
    ensures r == 0 <==> a == b
  {
    if a == [] then (if b == [] then 0 else -1)
    else if b == [] then 1
    else if a[0] < b[0] then -1
    else if a[0] > b[0] then 1
    else
      var r := Compare(a[1..], b[1..]);
      assert r == 0 ==> a == [a[0]] + a[1..] == [b[0]] + b[1..] == b;
      r
  }

  /** `a` sorts strictly before `b`. */
  predicate Below(a: string, b: string)
  {
    Compare(a, b) < 0
  }

  lemma {:induction false} CompareFlip(a: string, b: string)
    ensures Compare(b, a) == -Compare(a, b)
    decreases |a|
  {
    if a != [] && b != [] && a[0] == b[0] {
      CompareFlip(a[1..], b[1..]);
    }
  }

  lemma {:induction false} BelowTransitive(a: string, b: string, c: string)
    requires Below(a, b) && Below(b, c)
    ensures Below(a, c)
    decreases |a|
  {
    if a != [] && b != [] && c != [] && a[0] == b[0] && b[0] == c[0] {
      BelowTransitive(a[1..], b[1..], c[1..]);
    }
  }

  /** The order is total: two strings are equal or one is below the other. */
  lemma BelowTotal(a: string, b: string)
    ensures a == b || Below(a, b) || Below(b, a)
  {
    CompareFlip(a, b);
  }

  // ---------------------------------------------------------------------------
  // Integers (stands for `int.TryParse` and `int.ToString`)

  const Int32Min: int := -0x8000_0000
  const Int32Max: int := 0x7FFF_FFFF

  predicate IsDigit(c: char)
  {
    '0' <= c <= '9'
  }

  predicate AllDigits(s: string)
  {
    forall i :: 0 <= i < |s| ==> IsDigit(s[i])
  }

  /** The value of a string of decimal digits, most significant first. */
  function DigitsValue(s: string): nat
    requires AllDigits(s)
  {
    if s == [] then 0
    else DigitsValue(s[..|s| - 1]) * 10 + (s[|s| - 1] as int - '0' as int)
  }

  /** The white space `NumberStyles.Integer` allows around a number: U+0009
      to U+000D and the space. */
  predicate IsNumberBlank(c: char)
  {
    c == ' ' || '\t' <= c <= '\r'
  }

  /** `s` without its leading number blanks. */
  function StripLeading(s: string): (r: string)
    ensures |r| <= |s|
  {
    if s != [] && IsNumberBlank(s[0]) then StripLeading(s[1..]) else s
  }

  /** `s` without its trailing number blanks. */
  function StripTrailing(s: string): (r: string)
    ensures |r| <= |s|
  {
    if s != [] && IsNumberBlank(s[|s| - 1]) then StripTrailing(s[..|s| - 1]) else s
  }

  /** StripLeading removes exactly the leading number blanks: what is left is a
      suffix of `s` that does not start with one, and all it removed were. */
  lemma {:induction false} StripLeadingSpec(s: string)
    ensures var r := StripLeading(s);
      r == s[|s| - |r|..] && (r == [] || !IsNumberBlank(r[0]))
      && forall k :: 0 <= k < |s| - |r| ==> IsNumberBlank(s[k])
  {
    if s != [] && IsNumberBlank(s[0]) {
      StripLeadingSpec(s[1..]);
    }
  }

  /** StripTrailing removes exactly the trailing number blanks. */
  lemma {:induction false} StripTrailingSpec(s: string)
    ensures var r := StripTrailing(s);
      r == s[..|r|] && (r == [] || !IsNumberBlank(r[|r| - 1]))
      && forall k :: |r| <= k < |s| ==> IsNumberBlank(s[k])
  {
    if s != [] && IsNumberBlank(s[|s| - 1]) {
      StripTrailingSpec(s[..|s| - 1]);
    }
  }

  /** An optional sign followed by at least one decimal digit, with a value in
      the 32-bit range. */
  function ParseSigned(s: string): (r: Option<int>)
    ensures r.Some? ==> Int32Min <= r.value <= Int32Max
  {
    if |s| >= 1 && (s[0] == '-' || s[0] == '+') then
      var digits := s[1..];
      if digits == [] || !AllDigits(digits) then None
      else
        var d: int := DigitsValue(digits);
        var v := if s[0] == '-' then -d else d;
        if Int32Min <= v <= Int32Max then Some(v) else None
    else if s == [] || !AllDigits(s) then None
    else
      var v := DigitsValue(s);
      if v <= Int32Max then Some(v) else None
  }

  /** `int.TryParse` (`NumberStyles.Integer`): white space at both ends, then
      an optional sign and decimal digits within the 32-bit range. */
  function ParseInt(s: string): (r: Option<int>)
    ensures r.Some? ==> Int32Min <= r.value <= Int32Max
  {
    ParseSigned(StripTrailing(StripLeading(s)))
  }

  lemma {:induction false} StripTrailingSnoc(s: string, c: char)
    requires IsNumberBlank(c)
    ensures StripTrailing(s + [c]) == StripTrailing(s)
  {
    assert (s + [c])[..|s|] == s;
  }

  lemma {:induction false} StripLeadingSnoc(s: string, c: char)
    requires IsNumberBlank(c)
    ensures StripLeading(s + [c]) == [] <==> StripLeading(s) == []
    ensures StripLeading(s) != [] ==> StripLeading(s + [c]) == StripLeading(s) + [c]
    decreases |s|
  {
    if s != [] && IsNumberBlank(s[0]) {
      assert (s + [c])[1..] == s[1..] + [c];
      StripLeadingSnoc(s[1..], c);
    } else if s == [] {
      assert [c][1..] == [];
    }
  }

  /** White space before or after a number does not change what it parses to. */
  lemma ParseIntIgnoresBlanks(s: string, c: char)
    requires IsNumberBlank(c)
    ensures ParseInt([c] + s) == ParseInt(s)
    ensures ParseInt(s + [c]) == ParseInt(s)
  {
    assert ([c] + s)[1..] == s;
    StripLeadingSnoc(s, c);
    if StripLeading(s) != [] {
      StripTrailingSnoc(StripLeading(s), c);
    }
  }

  /** Decimal digits of a natural number, without leading zeros. */
  function NatToDigits(n: nat): (r: string)
    ensures |r| >= 1 && AllDigits(r)
  {
    if n < 10 then [('0' as int + n) as char]
    else NatToDigits(n / 10) + [('0' as int + n % 10) as char]
  }

  /** A digit is not white space. */
  lemma DigitNotWhiteSpace(c: char)
    requires IsDigit(c)
    ensures !IsWhiteSpace(c)
  {
  }

  /** `int.ToString()` with the invariant culture. */
  function FormatInt(n: int): string
  {
    if n < 0 then "-" + NatToDigits(-n) else NatToDigits(n)
  }

  lemma {:induction false} DigitsRoundTrip(n: nat)
    ensures DigitsValue(NatToDigits(n)) == n
  {
    if n >= 10 {
      DigitsRoundTrip(n / 10);
      var d := NatToDigits(n / 10) + [('0' as int + n % 10) as char];
      assert d[..|d| - 1] == NatToDigits(n / 10);
    }
  }

  /** Every 32-bit integer the protocol formats is read back unchanged. */
  lemma FormatParseRoundTrip(n: int)
    requires Int32Min <= n <= Int32Max
    ensures ParseInt(FormatInt(n)) == Some(n)
  {
    if n < 0 {
      NegativeParses(n);
    } else {
      var d := NatToDigits(n);
      DigitsRoundTrip(n);
      NoBlankEnds(d);
      assert !(d[0] == '-' || d[0] == '+');
    }
  }

  lemma NegativeParses(n: int)
    requires Int32Min <= n < 0
    ensures ParseInt(FormatInt(n)) == Some(n)
  {
    var d := NatToDigits(-n);
    DigitsRoundTrip(-n);
    var f := "-" + d;
    assert f[1..] == d && f[0] == '-' && f[|f| - 1] == d[|d| - 1];
    NoBlankEnds(f);
    MinusParses(f, d);
  }

  lemma MinusParses(f: string, d: string)
    requires |f| >= 2 && f[0] == '-' && f[1..] == d && AllDigits(d) && DigitsValue(d) <= -Int32Min
    ensures ParseSigned(f) == Some(-(DigitsValue(d) as int))
  {
  }

  lemma NoBlankEnds(s: string)
    requires s != [] && !IsNumberBlank(s[0]) && !IsNumberBlank(s[|s| - 1])
    ensures StripTrailing(StripLeading(s)) == s
  {
  }
}
