/** The parts of `java.lang.String` and `Integer` the simulator relies on, over `seq<char>`. */
module Text {
  import opened Wrappers
  import opened JavaInt

  /** `String.trim` strips every character at or below U+0020. */
  predicate IsTrimmable(c: char) { c <= ' ' }

  /** `trim`'s scan from the front: the first index from `st` on that is not trimmable, or
      the end. */
  function TrimLow(s: string, st: nat): (lo: nat)
    requires st <= |s|
    ensures st <= lo <= |s|
    ensures lo < |s| ==> !IsTrimmable(s[lo])
    decreases |s| - st
  {
    if st < |s| && IsTrimmable(s[st]) then TrimLow(s, st + 1) else st
  }

  /** The front scan passes over trimmable characters only. */
  lemma {:induction false} TrimLowSkips(s: string, st: nat)
    requires st <= |s|
    ensures forall i :: st <= i < TrimLow(s, st) ==> IsTrimmable(s[i])
    decreases |s| - st
  {
    if st < |s| && IsTrimmable(s[st]) {
      TrimLowSkips(s, st + 1);
    }
  }

  /** `trim`'s scan from the back, which stops at `st`: the end after the last character
      before `len` that is not trimmable. */
  function TrimHigh(s: string, st: nat, len: nat): (hi: nat)
    requires st <= len <= |s|
    ensures st <= hi <= len
    ensures hi > st ==> !IsTrimmable(s[hi - 1])
  {
    if st < len && IsTrimmable(s[len - 1]) then TrimHigh(s, st, len - 1) else len
  }

  /** The back scan passes over trimmable characters only. */
  lemma {:induction false} TrimHighSkips(s: string, st: nat, len: nat)
    requires st <= len <= |s|
    ensures forall i :: TrimHigh(s, st, len) <= i < len ==> IsTrimmable(s[i])
  {
    if st < len && IsTrimmable(s[len - 1]) {
      TrimHighSkips(s, st, len - 1);
    }
  }

  /** Java's `String.trim`: the longest slice of `s` that neither starts nor ends with a trimmable character. */
  function Trim(s: string): (r: string)
    ensures |r| <= |s|
    ensures r == [] || (!IsTrimmable(r[0]) && !IsTrimmable(r[|r| - 1]))
  {
    var lo := TrimLow(s, 0);
    s[lo..TrimHigh(s, lo, |s|)]
  }

  /** What `trim` removes: only trimmable characters, and only from the two ends. */
  lemma TrimSlice(s: string)
    ensures exists lo, hi :: 0 <= lo <= hi <= |s| && Trim(s) == s[lo..hi]
                             && (forall i :: 0 <= i < lo ==> IsTrimmable(s[i]))
                             && (forall i :: hi <= i < |s| ==> IsTrimmable(s[i]))
  {
    var lo := TrimLow(s, 0);
    var hi := TrimHigh(s, lo, |s|);
    TrimLowSkips(s, 0);
    TrimHighSkips(s, lo, |s|);
    assert Trim(s) == s[lo..hi];
  }

  /** Trimming only removes characters. */
  lemma TrimMembers(s: string)
    ensures forall ch :: ch in Trim(s) ==> ch in s
  {
    var lo := TrimLow(s, 0);
    var hi := TrimHigh(s, lo, |s|);
    assert forall k :: 0 <= k < hi - lo ==> Trim(s)[k] == s[lo + k];
  }

  /** `String.indexOf(c)`: the first position holding `c`. */
  function IndexOf(s: string, c: char): (r: Option<nat>)
    ensures r.None? <==> c !in s
    ensures r.Some? ==> r.value < |s| && s[r.value] == c && c !in s[..r.value]
  {
    if |s| == 0 then None
    else if s[0] == c then Some(0)
    else match IndexOf(s[1..], c)
      case None => None
      case Some(i) => assert s[1..][..i] == s[1..i + 1]; Some(i + 1)
  }

  /** The first occurrence is the one with none before it. */
  lemma IndexOfAt(s: string, c: char, p: nat)
    requires p < |s| && s[p] == c && c !in s[..p]
    ensures IndexOf(s, c) == Some(p)
  {
    assert c in s;
    var q := IndexOf(s, c).value;
    assert forall k :: 0 <= k < p ==> s[..p][k] == s[k];
    assert forall k :: 0 <= k < q ==> s[..q][k] == s[k];
  }

  function Join(parts: seq<string>, sep: char): string
    requires |parts| > 0
  {
    if |parts| == 1 then parts[0] else parts[0] + [sep] + Join(parts[1..], sep)
  }

  /** Splitting at every occurrence of `sep`, keeping empty pieces. */
  function SplitOn(s: string, sep: char): (r: seq<string>)
    ensures |r| > 0
    ensures forall i :: 0 <= i < |r| ==> sep !in r[i]
    ensures Join(r, sep) == s
    decreases |s|
  {
    match IndexOf(s, sep)
    case None => [s]
    case Some(i) =>
      var rest := SplitOn(s[i + 1..], sep);
      assert s == s[..i] + [sep] + s[i + 1..];
      [s[..i]] + rest
  }

  /** The characters the regular expression class `\s` matches. */
  predicate IsRegexSpace(c: char) {
    c == ' ' || c == '\t' || c == '\n' || c == '\U{B}' || c == '\U{C}' || c == '\r'
  }

  function SkipSpaces(s: string): (r: string)
    ensures |r| <= |s| && r == s[|s| - |r|..]
    ensures r == [] || !IsRegexSpace(r[0])
  {
    if |s| > 0 && IsRegexSpace(s[0]) then SkipSpaces(s[1..]) else s
  }

  function TakeWord(s: string): (r: string)
    ensures |r| <= |s| && r == s[..|r|]
    ensures forall i :: 0 <= i < |r| ==> !IsRegexSpace(r[i])
    ensures |r| == |s| || IsRegexSpace(s[|r|])
  {
    if |s| > 0 && !IsRegexSpace(s[0]) then
      var w := TakeWord(s[1..]);
      assert s[..|w| + 1] == [s[0]] + w;
      [s[0]] + w
    else []
  }

  predicate IsWord(w: string) {
    |w| > 0 && forall k :: 0 <= k < |w| ==> !IsRegexSpace(w[k])
  }

  /** The maximal runs of non-space characters of `s`, in order. */
  function Words(s: string): (r: seq<string>)
    ensures forall i :: 0 <= i < |r| ==> IsWord(r[i])
    decreases |s|
  {
    var t := SkipSpaces(s);
    if |t| == 0 then []
    else
      var w := TakeWord(t);
      FirstWord(t);
      var rest := Words(t[|w|..]);
      ConsWords(w, rest);
      [w] + rest
  }

  lemma FirstWord(t: string)
    requires t != [] && !IsRegexSpace(t[0])
    ensures IsWord(TakeWord(t))
  {
  }

  lemma ConsWords(w: string, rest: seq<string>)
    requires IsWord(w) && forall i :: 0 <= i < |rest| ==> IsWord(rest[i])
    ensures forall i :: 0 <= i < |[w] + rest| ==> IsWord(([w] + rest)[i])
  {
    assert forall i :: 0 < i < 1 + |rest| ==> ([w] + rest)[i] == rest[i - 1];
  }

  /** Java's `s.split("\\s+")`: a positive-width match at the start yields a leading empty
      piece, trailing empty pieces are dropped, and an input without any match is returned whole. */
  function SplitWhitespace(s: string): (r: seq<string>)
    ensures s == [] ==> r == [""]
    ensures s != [] && !IsRegexSpace(s[0]) ==> r == Words(s)
  {
    if s == [] then [""]
    else
      var w := Words(s);
      if w == [] then []
      else if IsRegexSpace(s[0]) then [""] + w
      else w
  }

  /** ASCII upper-casing (`Character.toUpperCase` on the characters mnemonics use). */
  function UpperChar(c: char): (r: char)
    ensures 'a' <= c <= 'z' ==> r as int == c as int - 32
    ensures !('a' <= c <= 'z') ==> r == c
  {
    if 'a' <= c <= 'z' then (c as int - 32) as char else c
  }

  function Upper(s: string): (r: string)
    ensures |r| == |s| && forall i :: 0 <= i < |s| ==> r[i] == UpperChar(s[i])
  {
    seq(|s|, i requires 0 <= i < |s| => UpperChar(s[i]))
  }

  lemma UpperIdempotent(s: string)
    ensures Upper(Upper(s)) == Upper(s)
  {
    assert forall i :: 0 <= i < |s| ==> UpperChar(UpperChar(s[i])) == UpperChar(s[i]);
  }

  /** A string that is already trimmed is its own trim. */
  lemma TrimOfTrimmed(s: string)
    requires s == [] || (!IsTrimmable(s[0]) && !IsTrimmable(s[|s| - 1]))
    ensures Trim(s) == s
  {
    assert TrimLow(s, 0) == 0;
    assert TrimHigh(s, 0, |s|) == |s|;
    assert s[0..|s|] == s;
  }

  /** A leading blank is trimmed away. */
  lemma TrimAfterBlank(s: string)
    requires s != [] && !IsTrimmable(s[0]) && !IsTrimmable(s[|s| - 1])
    ensures Trim(" " + s) == s
  {
    var x := " " + s;
    assert x[1] == s[0] && x[|x| - 1] == s[|s| - 1];
    assert TrimLow(x, 1) == 1;
    assert TrimLow(x, 0) == 1;
    assert TrimHigh(x, 1, |x|) == |x|;
    assert x[1..|x|] == s;
  }

  /** Leading blanks do not change the words of a text. */
  lemma WordsAfterBlank(s: string)
    ensures Words(" " + s) == Words(s)
  {
    assert (" " + s)[1..] == s;
    assert SkipSpaces(" " + s) == SkipSpaces(s);
  }

  /** A word followed by a blank or by nothing is the first word of the text. */
  /** A word on its own splits into itself alone. */
  lemma WordsOfLoneWord(w: string)
    requires IsWord(w)
    ensures Words(w) == [w]
  {
    assert SkipSpaces(w) == w;
    var t := TakeWord(w);
    assert |t| == |w|;
    assert t == w;
    assert w[|w|..] == [];
    assert Words([]) == [];
  }

  lemma WordsOfWord(w: string, rest: string)
    requires IsWord(w) && (rest == [] || IsRegexSpace(rest[0]))
    ensures Words(w + rest) == [w] + Words(rest)
  {
    var s := w + rest;
    assert SkipSpaces(s) == s;
    var t := TakeWord(s);
    assert forall k :: 0 <= k < |w| ==> s[k] == w[k];
    assert rest != [] ==> s[|w|] == rest[0];
    assert t == w;
    assert s[|w|..] == rest;
  }

  /** `String.equalsIgnoreCase`, restricted to ASCII case folding. */
  predicate EqualsIgnoreCase(a: string, b: string) {
    Upper(a) == Upper(b)
  }

  /** `s.replace(",", "")`, generalised to any character. */
  function RemoveChar(s: string, c: char): (r: string)
    ensures c !in r
    ensures |r| <= |s|
    ensures c !in s ==> r == s
  {
    if |s| == 0 then []
    else if s[0] == c then RemoveChar(s[1..], c)
    else [s[0]] + RemoveChar(s[1..], c)
  }

  predicate StartsWith(s: string, prefix: string) {
    |prefix| <= |s| && s[..|prefix|] == prefix
  }

  predicate IsDigit(c: char) { '0' <= c <= '9' }

  predicate AllDigits(s: string) { forall i :: 0 <= i < |s| ==> IsDigit(s[i]) }

  function DigitChar(d: nat): char
    requires d < 10
  {
    ('0' as int + d) as char
  }

  /** `Integer.toString` for a non-negative value. */
  function NatToString(n: nat): (r: string)
    ensures |r| > 0 && AllDigits(r)
    ensures |r| > 1 ==> r[0] != '0'
  {
    if n < 10 then [DigitChar(n)] else NatToString(n / 10) + [DigitChar(n % 10)]
  }

  /** `Integer.toString` for any value: a minus sign before the magnitude. */
  function IntToString(n: int): (r: string)
    ensures |r| > 0
  {
    if n < 0 then "-" + NatToString(-n) else NatToString(n)
  }

  function DigitsValue(s: string): (v: nat)
    requires AllDigits(s)
  {
    if |s| == 0 then 0 else DigitsValue(s[..|s| - 1]) * 10 + (s[|s| - 1] as int - '0' as int)
  }

  /** `Integer.parseInt` on ASCII input: an optional sign, at least one digit, and a value
      that fits in 32 bits; anything else is the source's `NumberFormatException`. */
  function ParseInt(s: string): (r: Option<int>)
    ensures r.Some? ==> IsInt32(r.value)
    ensures r.Some? ==> |s| > 0 && (AllDigits(s) || ((s[0] == '-' || s[0] == '+') && |s| > 1 && AllDigits(s[1..])))
  {
    if |s| == 0 then None
    else
      var signed := s[0] == '-' || s[0] == '+';
      var digits := if signed then s[1..] else s;
      if |digits| == 0 || !AllDigits(digits) then None
      else
        var magnitude: int := DigitsValue(digits);
        var v := if s[0] == '-' then -magnitude else magnitude;
        if IsInt32(v) then Some(v) else None
  }

  lemma {:induction false} DigitsOfNat(n: nat)
    ensures DigitsValue(NatToString(n)) == n
  {
    var s := NatToString(n);
    if n >= 10 {
      DigitsOfNat(n / 10);
      assert s[..|s| - 1] == NatToString(n / 10);
    }
  }

  /** An unsigned run of digits parses to its value. */
  lemma ParseUnsigned(d: string)
    requires |d| > 0 && AllDigits(d) && IsInt32(DigitsValue(d))
    ensures ParseInt(d) == Some(DigitsValue(d))
  {
    assert IsDigit(d[0]);
  }

  /** A minus sign before a run of digits parses to the negated value. */
  lemma ParseNegative(d: string)
    requires |d| > 0 && AllDigits(d) && IsInt32(-(DigitsValue(d) as int))
    ensures ParseInt("-" + d) == Some(-(DigitsValue(d) as int))
  {
    assert ("-" + d)[1..] == d;
  }

  /** Printing an integer and parsing it back gives the integer again. */
  lemma {:induction false} ParseIntOfToString(n: int)
    requires IsInt32(n)
    ensures ParseInt(IntToString(n)) == Some(n)
  {
    if n < 0 {
      DigitsOfNat(-n);
      ParseNegative(NatToString(-n));
    } else {
      DigitsOfNat(n);
      ParseUnsigned(NatToString(n));
    }
  }
}
