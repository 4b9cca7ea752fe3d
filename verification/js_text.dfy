/**
 * The JavaScript string primitives that the instruction parser and the
 * transform route rely on, written over `seq<char>`: `\s`, `trim()`,
 * `replace(/\s+/g, ' ')`, ASCII `toLowerCase`/`toUpperCase`, `includes`,
 * `Number(string)` on integer text, `String(number)` and a code-point
 * ordering that stands in for `localeCompare`.
 */
module JsText {
  import opened Wrappers

  // ---------------------------------------------------------------------
  // Characters
  // ---------------------------------------------------------------------

  /** The characters matched by `\s` and removed by `String.prototype.trim`. */
  predicate IsSpace(c: char) {
    || c == ' ' || ('\t' <= c <= '\r') || c == '\U{00A0}' || c == '\U{1680}'
    || ('\U{2000}' <= c <= '\U{200A}') || ('\U{2028}' <= c <= '\U{2029}')
    || c == '\U{202F}' || c == '\U{205F}' || c == '\U{3000}' || c == '\U{FEFF}'
  }

  predicate IsUpper(c: char) { 'A' <= c <= 'Z' }

  predicate IsDigit(c: char) { '0' <= c <= '9' }

  /** `toLowerCase` on one character, for the ASCII letters. */
  function ToLower(c: char): (r: char)
    ensures !IsUpper(r)
    ensures IsSpace(r) <==> IsSpace(c)
    ensures r == ' ' <==> c == ' '
    ensures !IsUpper(c) ==> r == c
  {
    if IsUpper(c) then (c as int + 32) as char else c
  }

  /** `toUpperCase` on one character, for the ASCII letters. */
  function ToUpper(c: char): (r: char)
    ensures IsSpace(r) <==> IsSpace(c)
    ensures r == ' ' <==> c == ' '
    ensures !('a' <= r <= 'z')
  {
    if 'a' <= c <= 'z' then (c as int - 32) as char else c
  }

  lemma ToUpperIdempotent(c: char)
    ensures ToUpper(ToUpper(c)) == ToUpper(c)
  {
  }

  // ---------------------------------------------------------------------
  // Character-class predicates on strings
  // ---------------------------------------------------------------------

  /** No ASCII upper-case letter occurs in `s`. */
  ghost predicate NoUpper(s: string) {
    forall i :: 0 <= i < |s| ==> !IsUpper(s[i])
  }

  /** The only white space in `s` is the plain space. */
  ghost predicate SpacesOnly(s: string) {
    forall i :: 0 <= i < |s| && IsSpace(s[i]) ==> s[i] == ' '
  }

  /** What `replace(/\s+/g, ' ')` leaves: plain spaces, never two in a row. */
  ghost predicate SingleSpaced(s: string) {
    && SpacesOnly(s)
    && forall i :: 0 <= i < |s| - 1 ==> !(s[i] == ' ' && s[i + 1] == ' ')
  }

  /** What `trim()` leaves: no white space at either end. */
  ghost predicate Trimmed(s: string) {
    s == [] || (!IsSpace(s[0]) && !IsSpace(s[|s| - 1]))
  }

  // ---------------------------------------------------------------------
  // toLowerCase, trim, replace(/\s+/g, ' ')
  // ---------------------------------------------------------------------

  /** `s.toLowerCase()`. */
  function Lower(s: string): (r: string)
    ensures |r| == |s| && NoUpper(r)
    ensures forall i :: 0 <= i < |s| ==> r[i] == ToLower(s[i])
  {
    seq(|s|, i requires 0 <= i < |s| => ToLower(s[i]))
  }

  /** `trimStart()`: the suffix left after dropping leading white space. */
  function TrimStart(s: string): (r: string)
    ensures |r| <= |s|
    ensures r == [] || !IsSpace(r[0])
  {
    if |s| > 0 && IsSpace(s[0]) then TrimStart(s[1..]) else s
  }

  /** `trimEnd()`: the prefix left after dropping trailing white space. */
  function TrimEnd(s: string): (r: string)
    ensures |r| <= |s|
    ensures r == [] || !IsSpace(r[|r| - 1])
  {
    if |s| > 0 && IsSpace(s[|s| - 1]) then TrimEnd(s[..|s| - 1]) else s
  }

  /** `s.trim()`: white space removed at both ends. */
  function Trim(s: string): (r: string)
    ensures Trimmed(r) && |r| <= |s|
  {
    TrimEndIsPrefix(TrimStart(s));
    TrimEnd(TrimStart(s))
  }

  /** `trimStart()` removes a prefix made of white space only. */
  lemma {:induction false} TrimStartIsSuffix(s: string)
    ensures TrimStart(s) == s[|s| - |TrimStart(s)|..]
    ensures forall i :: 0 <= i < |s| - |TrimStart(s)| ==> IsSpace(s[i])
  {
    if |s| > 0 && IsSpace(s[0]) {
      TrimStartIsSuffix(s[1..]);
    }
  }

  /** `trimEnd()` removes a suffix made of white space only. */
  lemma {:induction false} TrimEndIsPrefix(s: string)
    ensures TrimEnd(s) == s[..|TrimEnd(s)|]
    ensures forall i :: |TrimEnd(s)| <= i < |s| ==> IsSpace(s[i])
  {
    if |s| > 0 && IsSpace(s[|s| - 1]) {
      TrimEndIsPrefix(s[..|s| - 1]);
    }
  }

  /** `trim()` keeps one contiguous piece of its input and removes only white space around it. */
  lemma TrimIsSlice(s: string) returns (lead: nat)
    ensures lead + |Trim(s)| <= |s| && Trim(s) == s[lead..lead + |Trim(s)|]
    ensures forall i :: 0 <= i < lead ==> IsSpace(s[i])
    ensures forall i :: lead + |Trim(s)| <= i < |s| ==> IsSpace(s[i])
  {
    var t := TrimStart(s);
    TrimStartIsSuffix(s);
    lead := |s| - |t|;
    var r := TrimEnd(t);
    TrimEndIsPrefix(t);
    assert t == s[lead..] && r == t[..|r|];
    assert forall i :: lead + |r| <= i < |s| ==> s[i] == t[i - lead];
  }

  /** `s.replace(/\s+/g, ' ')`: every run of white space becomes one space. */
  function CollapseSpaces(s: string): (r: string)
    ensures SingleSpaced(r)
    ensures |s| > 0 ==> |r| > 0 && r[0] == (if IsSpace(s[0]) then ' ' else s[0])
    ensures forall i :: 0 <= i < |r| ==> r[i] == ' ' || r[i] in s
    decreases |s|
  {
    if s == [] then []
    else if IsSpace(s[0]) then
      TrimStartIsSuffix(s);
      [' '] + CollapseSpaces(TrimStart(s))
    else [s[0]] + CollapseSpaces(s[1..])
  }

  /** Text made of white space only. */
  ghost predicate AllSpace(w: string) {
    forall i :: 0 <= i < |w| ==> IsSpace(w[i])
  }

  /** `trimStart()` of a concatenation: the second part is reached only when the first is all white space. */
  lemma {:induction false} TrimStartOfConcat(a: string, b: string)
    ensures TrimStart(a + b) == if AllSpace(a) then TrimStart(b) else TrimStart(a) + b
    ensures AllSpace(a) <==> TrimStart(a) == []
  {
    if a == [] {
      assert a + b == b;
    } else if IsSpace(a[0]) {
      assert (a + b)[1..] == a[1..] + b;
      TrimStartOfConcat(a[1..], b);
      assert AllSpace(a) <==> AllSpace(a[1..]);
    } else {
      assert (a + b)[0] == a[0];
    }
  }

  /** A run of white space, however long and of whatever characters, becomes one plain space. */
  lemma CollapseOfRun(w: string)
    requires w != [] && AllSpace(w)
    ensures CollapseSpaces(w) == " "
  {
    TrimStartOfConcat(w, []);
  }

  /** A character that is not white space is kept as it is. */
  lemma CollapseKeepsOthers(c: char)
    requires !IsSpace(c)
    ensures CollapseSpaces([c]) == [c]
  {
    assert [c][1..] == [];
  }

  /**
   * Collapsing works piece by piece: text cut anywhere except inside a run
   * of white space collapses to the two collapsed pieces, joined. With
   * `CollapseOfRun` and `CollapseKeepsOthers` this determines the result of
   * every input: each run becomes one space, everything else stays, in order.
   */
  lemma {:induction false} CollapseOfConcat(a: string, b: string)
    requires a == [] || b == [] || !IsSpace(a[|a| - 1]) || !IsSpace(b[0])
    ensures CollapseSpaces(a + b) == CollapseSpaces(a) + CollapseSpaces(b)
    decreases |a|
  {
    if a == [] {
      assert a + b == b;
    } else if !IsSpace(a[0]) {
      assert (a + b)[1..] == a[1..] + b;
      CollapseOfConcat(a[1..], b);
      CollapseStep(a, b);
    } else if AllSpace(a) {
      CollapseOfRun(a);
      CollapseAfterRun(a, b);
    } else {
      var t := TrimStart(a);
      TrimStartIsSuffix(a);
      assert t[|t| - 1] == a[|a| - 1];
      CollapseOfConcat(t, b);
      CollapseInsideRun(a, b);
    }
  }

  /** One kept character in front of a concatenation. */
  lemma CollapseStep(a: string, b: string)
    requires a != [] && !IsSpace(a[0])
    requires CollapseSpaces(a[1..] + b) == CollapseSpaces(a[1..]) + CollapseSpaces(b)
    ensures CollapseSpaces(a + b) == CollapseSpaces(a) + CollapseSpaces(b)
  {
    TailOfConcat(a, b);
    CollapseKeepsHead(a + b);
    CollapseKeepsHead(a);
    SeqAssoc([a[0]], CollapseSpaces(a[1..]), CollapseSpaces(b));
  }

  lemma TailOfConcat(a: string, b: string)
    requires a != []
    ensures (a + b)[0] == a[0] && (a + b)[1..] == a[1..] + b
  {
  }

  lemma SeqAssoc(x: string, y: string, z: string)
    ensures x + (y + z) == (x + y) + z
  {
  }

  /** A first character that is not white space is kept in front of the rest. */
  lemma CollapseKeepsHead(s: string)
    requires s != [] && !IsSpace(s[0])
    ensures CollapseSpaces(s) == [s[0]] + CollapseSpaces(s[1..])
  {
  }

  /** A whole run in front of text that does not start with white space. */
  lemma CollapseAfterRun(a: string, b: string)
    requires a != [] && AllSpace(a) && (b == [] || !IsSpace(b[0]))
    requires CollapseSpaces(a) == " "
    ensures CollapseSpaces(a + b) == CollapseSpaces(a) + CollapseSpaces(b)
  {
    assert (a + b)[0] == a[0];
    TrimStartOfConcat(a, b);
    assert TrimStart(b) == b;
  }

  /** A run at the front of `a`, which goes on past it. */
  lemma CollapseInsideRun(a: string, b: string)
    requires a != [] && IsSpace(a[0]) && !AllSpace(a)
    requires CollapseSpaces(TrimStart(a) + b) == CollapseSpaces(TrimStart(a)) + CollapseSpaces(b)
    ensures CollapseSpaces(a + b) == CollapseSpaces(a) + CollapseSpaces(b)
  {
    assert (a + b)[0] == a[0];
    TrimStartOfConcat(a, b);
  }

  /** Trimming a single-spaced string leaves it single-spaced and keeps it free of upper case. */
  lemma TrimKeepsShape(c: string)
    ensures SingleSpaced(c) ==> SingleSpaced(Trim(c))
    ensures NoUpper(c) ==> NoUpper(Trim(c))
  {
    var t := Trim(c);
    var lead := TrimIsSlice(c);
    assert forall i :: 0 <= i < |t| ==> t[i] == c[lead + i];
  }

  /** Collapsing white space introduces no upper-case letter. */
  lemma CollapseKeepsNoUpper(s: string)
    requires NoUpper(s)
    ensures NoUpper(CollapseSpaces(s))
  {
    var r := CollapseSpaces(s);
    forall i | 0 <= i < |r| ensures !IsUpper(r[i]) {
      if r[i] != ' ' {
        var j :| 0 <= j < |s| && s[j] == r[i];
      }
    }
  }

  /** Text without upper-case letters is its own lower case. */
  lemma LowerOfNoUpper(t: string)
    requires NoUpper(t)
    ensures Lower(t) == t
  {
  }

  /** Single-spaced text has no run of white space to collapse. */
  lemma {:induction false} CollapseOfSingleSpaced(t: string)
    requires SingleSpaced(t)
    ensures CollapseSpaces(t) == t
    decreases |t|
  {
    if t != [] {
      assert SingleSpaced(t[1..]);
      CollapseOfSingleSpaced(t[1..]);
      if IsSpace(t[0]) {
        assert |t| == 1 || !IsSpace(t[1]);
        assert TrimStart(t) == t[1..];
      }
      assert t == [t[0]] + t[1..];
    }
  }

  /** Trimmed text has nothing to trim. */
  lemma TrimOfTrimmed(t: string)
    requires Trimmed(t)
    ensures Trim(t) == t
  {
  }

  // ---------------------------------------------------------------------
  // includes
  // ---------------------------------------------------------------------

  /** `t.includes(p)`: `p` occurs in `t` as a contiguous piece. */
  function Contains(t: string, p: string): bool
    decreases |t|
  {
    p <= t || (|t| > 0 && Contains(t[1..], p))
  }

  /** `p` sits in `t` starting at offset `k`. */
  ghost predicate OccursAt(t: string, p: string, k: int) {
    0 <= k <= |t| - |p| && t[k..k + |p|] == p
  }

  /** `includes` means "occurs at some offset", in both directions. */
  lemma {:induction false} ContainsIffOccurs(t: string, p: string)
    ensures Contains(t, p) <==> exists k :: OccursAt(t, p, k)
  {
    if p <= t {
      assert OccursAt(t, p, 0);
    } else if |t| > 0 {
      ContainsIffOccurs(t[1..], p);
      forall k | OccursAt(t, p, k) ensures OccursAt(t[1..], p, k - 1) {
        assert k != 0;
        assert t[1..][k - 1..k - 1 + |p|] == t[k..k + |p|];
      }
      if Contains(t[1..], p) {
        var k :| OccursAt(t[1..], p, k);
        assert OccursAt(t, p, k + 1);
      }
    }
  }

  /** Every character of a contained piece is a character of the whole. */
  lemma {:induction false} ContainsChars(t: string, p: string)
    requires Contains(t, p)
    ensures forall i :: 0 <= i < |p| ==> p[i] in t
  {
    if p <= t {
      forall i | 0 <= i < |p| ensures p[i] in t {
        assert p[i] == t[i];
      }
    } else {
      ContainsChars(t[1..], p);
      forall i | 0 <= i < |p| ensures p[i] in t {
        assert p[i] in t[1..];
      }
    }
  }

  /** A piece of a string without upper-case letters has none either; the same for plain spaces. */
  lemma ContainedInherits(t: string, p: string)
    requires Contains(t, p)
    ensures NoUpper(t) ==> NoUpper(p)
    ensures SpacesOnly(t) ==> SpacesOnly(p)
  {
    ContainsChars(t, p);
    forall i | 0 <= i < |p| ensures exists j :: 0 <= j < |t| && t[j] == p[i] {
      assert p[i] in t;
    }
  }

  // ---------------------------------------------------------------------
  // String(n) and Number(s) on integers
  // ---------------------------------------------------------------------

  ghost predicate AllDigits(s: string) {
    forall i :: 0 <= i < |s| ==> IsDigit(s[i])
  }

  function DigitChar(d: nat): (c: char)
    requires d < 10
    ensures IsDigit(c)
  {
    ('0' as int + d) as char
  }

  function DigitValue(c: char): (d: nat)
    requires IsDigit(c)
    ensures d < 10 && DigitChar(d) == c
  {
    c as int - '0' as int
  }

  /** Decimal digits of `n` without leading zeros. */
  function NatToDigits(n: nat): (r: string)
    ensures |r| >= 1 && AllDigits(r)
    decreases n
  {
    if n < 10 then [DigitChar(n)] else NatToDigits(n / 10) + [DigitChar(n % 10)]
  }

  /** `String(n)` for an integer `n`. */
  function IntToString(n: int): (r: string)
    ensures |r| >= 1 && (IsDigit(r[0]) || r[0] == '-') && IsDigit(r[|r| - 1])
  {
    if n < 0 then "-" + NatToDigits(-n) else NatToDigits(n)
  }

  /** The value of a string of decimal digits, most significant first. */
  function DigitsValue(s: string): nat
    requires AllDigits(s)
  {
    if s == [] then 0 else DigitsValue(s[..|s| - 1]) * 10 + DigitValue(s[|s| - 1])
  }

  /** A non-empty run of decimal digits, or nothing. */
  function Unsigned(d: string): (r: Option<nat>)
    ensures r.Some? <==> |d| > 0 && AllDigits(d)
  {
    if |d| > 0 && forall i :: 0 <= i < |d| ==> IsDigit(d[i]) then Some(DigitsValue(d)) else None
  }

  /**
   * `Number(s)` restricted to integer text: white space around the
   * number is ignored, blank text is 0, one optional sign, then digits;
   * anything else is NaN (`None`).
   */
  function StringToNumber(s: string): Option<int> {
    SignedNumber(Trim(s))
  }

  /** The numeric value of trimmed text: blank is 0, else an optional sign and digits. */
  function SignedNumber(t: string): Option<int> {
    if t == [] then Some(0)
    else
      var signed := t[0] == '-' || t[0] == '+';
      match Unsigned(if signed then t[1..] else t)
      case None => None
      case Some(v) => var m: int := v; Some(if t[0] == '-' then -m else m)
  }

  lemma {:induction false} DigitsRoundTrip(n: nat)
    ensures DigitsValue(NatToDigits(n)) == n
    decreases n
  {
    if n >= 10 {
      DigitsRoundTrip(n / 10);
      var ds := NatToDigits(n / 10) + [DigitChar(n % 10)];
      assert ds[..|ds| - 1] == NatToDigits(n / 10);
    }
  }

  /** Text with no white space at its ends is left alone by `trim()`. */
  lemma TrimKeepsTrimmed(s: string)
    requires Trimmed(s)
    ensures Trim(s) == s
  {
    assert TrimStart(s) == s;
    assert TrimEnd(s) == s;
  }

  /** Digit text, with or without a leading minus sign, is its own signed value. */
  lemma SignedNumberOfDigits(ds: string)
    requires |ds| > 0 && AllDigits(ds)
    ensures SignedNumber(ds) == Some(DigitsValue(ds))
    ensures SignedNumber("-" + ds) == Some(-(DigitsValue(ds) as int))
  {
    assert IsDigit(ds[0]);
    assert Unsigned(ds) == Some(DigitsValue(ds));
    assert ("-" + ds)[1..] == ds;
  }

  /** Digit text, with or without a leading minus sign, reads as its value. */
  lemma NumberOfDigits(ds: string)
    requires |ds| > 0 && AllDigits(ds)
    ensures StringToNumber(ds) == Some(DigitsValue(ds))
    ensures StringToNumber("-" + ds) == Some(-(DigitsValue(ds) as int))
  {
    SignedNumberOfDigits(ds);
    DigitsAreTrimmed(ds);
    TrimKeepsTrimmed(ds);
    TrimKeepsTrimmed("-" + ds);
  }

  lemma DigitsAreTrimmed(ds: string)
    requires |ds| > 0 && AllDigits(ds)
    ensures Trimmed(ds) && Trimmed("-" + ds)
  {
    assert IsDigit(ds[0]) && IsDigit(ds[|ds| - 1]);
    assert ("-" + ds)[|ds|] == ds[|ds| - 1];
  }

  /** `Number(String(n)) == n`: the text of an integer reads back as that integer. */
  lemma NumberOfIntToString(n: int)
    ensures StringToNumber(IntToString(n)) == Some(n)
  {
    var m: nat := if n < 0 then -n else n;
    var ds := NatToDigits(m);
    DigitsRoundTrip(m);
    NumberOfDigits(ds);
    assert IntToString(n) == if n < 0 then "-" + ds else ds;
  }

  /** The text of a number is never the text of NaN, nor blank. */
  lemma IntToStringIsNotNaN(n: int)
    ensures IntToString(n) != "NaN" && IntToString(n) != ""
  {
    var s := IntToString(n);
    assert IsDigit(s[|s| - 1]);
  }

  // ---------------------------------------------------------------------
  // replace(/,/g, '')
  // ---------------------------------------------------------------------

  /** `s.replace(/,/g, '')`. */
  function RemoveCommas(s: string): (r: string)
    ensures ',' !in r
    ensures ',' !in s ==> r == s
    ensures |r| <= |s|
  {
    if s == [] then []
    else if s[0] == ',' then RemoveCommas(s[1..])
    else [s[0]] + RemoveCommas(s[1..])
  }

  // ---------------------------------------------------------------------
  // localeCompare stand-in
  // ---------------------------------------------------------------------

  /** Lexicographic comparison by code point: -1, 0 or 1. */
  function StrCompare(a: string, b: string): (r: int)
    ensures -1 <= r <= 1
  {
    if a == [] && b == [] then 0
    else if a == [] then -1
    else if b == [] then 1
    else if a[0] < b[0] then -1
    else if a[0] > b[0] then 1
    else StrCompare(a[1..], b[1..])
  }

  /** Swapping the operands negates the comparison; it is zero exactly on equal strings. */
  lemma {:induction false} StrCompareAntisymmetric(a: string, b: string)
    ensures StrCompare(b, a) == -StrCompare(a, b)
    ensures StrCompare(a, b) == 0 <==> a == b
  {
    if a != [] && b != [] && a[0] == b[0] {
      StrCompareAntisymmetric(a[1..], b[1..]);
      if a[1..] == b[1..] {
        assert a == [a[0]] + a[1..] && b == [b[0]] + b[1..];
      }
    }
  }

  /** Comparison is transitive: it orders strings totally. */
  lemma {:induction false} StrCompareTransitive(a: string, b: string, c: string)
    requires StrCompare(a, b) <= 0 && StrCompare(b, c) <= 0
    ensures StrCompare(a, c) <= 0
  {
    if a != [] && b != [] && c != [] && a[0] == b[0] && b[0] == c[0] {
      StrCompareTransitive(a[1..], b[1..], c[1..]);
    }
  }
}
