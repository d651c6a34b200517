/** The pieces of C's string handling that the programs rely on: the "C" locale's isspace,
    the scanf white-space directive and %s conversion, printf's %d, the NUL that ends a
    C string, and snprintf's truncation to its buffer. */
module CText {
  import opened Base

  /** isspace in the "C" locale: space, \t, \n, \v, \f and \r. */
  predicate IsSpace(c: char) {
    c == ' ' || c == '\t' || c == '\n' || c == '\U{000B}' || c == '\U{000C}' || c == '\r'
  }

  predicate NoSpace(s: string) {
    forall i :: 0 <= i < |s| ==> !IsSpace(s[i])
  }

  predicate AllSpace(s: string) {
    forall i :: 0 <= i < |s| ==> IsSpace(s[i])
  }

  /** The length of the white-space run at the start of s. */
  function LeadingSpaces(s: string): (k: nat)
    ensures k <= |s| && (k == |s| || !IsSpace(s[k]))
    ensures forall i :: 0 <= i < k ==> IsSpace(s[i])
  {
    if s != [] && IsSpace(s[0]) then
      var k := LeadingSpaces(s[1..]);
      assert forall i :: 1 <= i < k + 1 ==> s[i] == s[1..][i - 1];
      k + 1
    else 0
  }

  /** What a scanf white-space directive leaves: the input after its leading white space. */
  function SkipSpaces(s: string): (r: string)
    ensures |r| <= |s| && r == s[|s| - |r|..]
    ensures r == [] || !IsSpace(r[0])
    ensures AllSpace(s[..|s| - |r|])
  {
    s[LeadingSpaces(s)..]
  }

  /** The characters a %s conversion stores: the longest prefix without white space. */
  function Word(s: string): (w: string)
    ensures w <= s && NoSpace(w)
    ensures |w| == |s| || IsSpace(s[|w|])
  {
    if s == [] || IsSpace(s[0]) then [] else [s[0]] + Word(s[1..])
  }

  /** Every character of a slice occurs in the whole string. */
  lemma CharsOfSlice(s: string, i: nat, j: nat)
    requires i <= j <= |s|
    ensures forall c :: c in s[i..j] ==> c in s
  {
    forall c | c in s[i..j]
      ensures c in s
    {
      var k :| 0 <= k < j - i && s[i..j][k] == c;
      assert s[i + k] == c;
    }
  }

  /** A %s conversion (after optional white space) on the input s: None when only white space
      is left (scanf then stops with EOF), otherwise the stored word and the unread input. */
  function ScanWord(s: string): (r: Option<(string, string)>)
    ensures r.None? <==> AllSpace(s)
    ensures r.Some? ==> r.value.0 != [] && NoSpace(r.value.0)
    ensures r.Some? ==> (forall c :: c in r.value.0 ==> c in s) && (forall c :: c in r.value.1 ==> c in s)
    ensures r.Some? ==> Blanked(s, r.value.0, r.value.1)
  {
    var t := SkipSpaces(s);
    if t == [] then None
    else
      var w := Word(t);
      CharsOfSlice(s, |s| - |t|, |s|);
      CharsOfSlice(t, 0, |w|);
      CharsOfSlice(t, |w|, |t|);
      assert s[|s| - |t|..|s|] == t && t[0..|w|] == w && t[|w|..|t|] == t[|w|..];
      assert t == w + t[|w|..];
      Some((w, t[|w|..]))
  }

  /** s is a run of white space, then the word w, then rest, which is empty or starts with
      white space: the shape in which a %s conversion reads w and leaves rest. */
  predicate Blanked(s: string, w: string, rest: string) {
    |w| + |rest| <= |s| && AllSpace(s[..|s| - |w| - |rest|]) && s[|s| - |w| - |rest|..] == w + rest &&
    (rest == [] || IsSpace(rest[0]))
  }

  /** The white-space directive skips a whole run of white space, however long. */
  lemma SkipBlanks(sp: string, t: string)
    requires AllSpace(sp)
    requires t == [] || !IsSpace(t[0])
    ensures SkipSpaces(sp + t) == t
  {
    var s := sp + t;
    assert forall i :: 0 <= i < |sp| ==> s[i] == sp[i];
    assert |sp| == |s| || s[|sp|] == t[0];
    assert LeadingSpaces(s) == |sp|;
    assert s[|sp|..] == t;
  }

  /** Any run of white space before a word is skipped, and then the word is read back. */
  lemma ScanWordAfterBlanks(sp: string, w: string, rest: string)
    requires AllSpace(sp)
    requires w != [] && NoSpace(w)
    requires rest == [] || IsSpace(rest[0])
    ensures ScanWord(sp + w + rest) == Some((w, rest))
  {
    assert sp + w + rest == sp + (w + rest);
    assert (w + rest)[0] == w[0];
    SkipBlanks(sp, w + rest);
    WordOfPrefix(w, rest);
    assert (w + rest)[|w|..] == rest;
  }

  /** The format "kw %s": the literal keyword must match character by character, then the
      white-space directive and %s. None when scanf would return 0 or EOF. */
  function ScanAfter(s: string, kw: string): (r: Option<(string, string)>)
    ensures r.Some? ==> kw <= s
    ensures r.None? <==> !(kw <= s) || AllSpace(s[|kw|..])
    ensures r.Some? ==> r.value.0 != [] && NoSpace(r.value.0)
    ensures r.Some? ==> (forall c :: c in r.value.0 ==> c in s) && (forall c :: c in r.value.1 ==> c in s)
    ensures r.Some? ==> Blanked(s[|kw|..], r.value.0, r.value.1)
  {
    if kw <= s then
      CharsOfSlice(s, |kw|, |s|);
      assert s[|kw|..|s|] == s[|kw|..];
      ScanWord(s[|kw|..])
    else None
  }

  /** Two %s conversions in a row: both words, or None when sscanf would return less than 2. */
  function ScanPair(s: string): (r: Option<(string, string)>)
    ensures r.None? <==> AllSpace(s) || AllSpace(ScanWord(s).value.1)
    ensures r.Some? ==> r.value.0 != [] && NoSpace(r.value.0) && r.value.1 != [] && NoSpace(r.value.1)
    ensures r.Some? ==> (forall c :: c in r.value.0 ==> c in s) && (forall c :: c in r.value.1 ==> c in s)
  {
    match ScanWord(s)
    case None => None
    case Some((first, rest)) =>
      match ScanWord(rest)
      case None => None
      case Some((second, _)) => Some((first, second))
  }

  /** The format "kw %s %s". */
  function ScanPairAfter(s: string, kw: string): (r: Option<(string, string)>)
    ensures r.Some? ==> kw <= s
    ensures r.None? <==>
      !(kw <= s) || AllSpace(s[|kw|..]) || AllSpace(ScanWord(s[|kw|..]).value.1)
    ensures r.Some? ==> r.value.0 != [] && NoSpace(r.value.0) && r.value.1 != [] && NoSpace(r.value.1)
    ensures r.Some? ==> (forall c :: c in r.value.0 ==> c in s) && (forall c :: c in r.value.1 ==> c in s)
  {
    if kw <= s then
      CharsOfSlice(s, |kw|, |s|);
      assert s[|kw|..|s|] == s[|kw|..];
      ScanPair(s[|kw|..])
    else None
  }

  /** %s reads back exactly a non-empty word followed by white space or the end. */
  lemma {:induction false} WordOfPrefix(w: string, rest: string)
    requires NoSpace(w)
    requires rest == [] || IsSpace(rest[0])
    ensures Word(w + rest) == w
  {
    if w != [] {
      assert (w + rest)[1..] == w[1..] + rest;
      WordOfPrefix(w[1..], rest);
    }
  }

  lemma ScanWordOf(w: string, rest: string)
    requires w != [] && NoSpace(w)
    requires rest == [] || IsSpace(rest[0])
    ensures ScanWord(w + rest) == Some((w, rest))
  {
    assert !IsSpace((w + rest)[0]);
    WordOfPrefix(w, rest);
    assert (w + rest)[|w|..] == rest;
  }

  /** "kw", a run of white space and a word read back as that word, leaving the rest. */
  lemma ScanAfterOf(kw: string, sp: string, w: string, rest: string)
    requires AllSpace(sp)
    requires w != [] && NoSpace(w)
    requires rest == [] || IsSpace(rest[0])
    ensures ScanAfter(kw + sp + w + rest, kw) == Some((w, rest))
  {
    var s := kw + sp + w + rest;
    assert s[..|kw|] == kw;
    assert s[|kw|..] == sp + w + rest;
    ScanWordAfterBlanks(sp, w, rest);
  }

  /** Two words, each after a run of white space (the second run not empty, or the two
      words would be one), read back as both words, whatever white-space-led text follows. */
  lemma ScanPairOf(sp: string, first: string, gap: string, second: string, rest: string)
    requires AllSpace(sp) && AllSpace(gap) && gap != []
    requires first != [] && NoSpace(first) && second != [] && NoSpace(second)
    requires rest == [] || IsSpace(rest[0])
    ensures ScanPair(sp + first + gap + second + rest) == Some((first, second))
  {
    var tail := gap + second + rest;
    assert sp + first + gap + second + rest == sp + first + tail;
    assert tail[0] == gap[0];
    ScanWordAfterBlanks(sp, first, tail);
    ScanWordAfterBlanks(gap, second, rest);
  }

  /** A Blanked string is its white-space run, the word and the rest, in that order. */
  lemma BlankedSplit(s: string, w: string, rest: string)
    requires Blanked(s, w, rest)
    ensures s == s[..|s| - |w| - |rest|] + w + rest
  {
    var n := |s| - |w| - |rest|;
    assert s == s[..n] + s[n..];
  }

  /** Two Blanked splits in a row: white space, a word, white space, a word and the rest. */
  lemma BlankedTwice(s: string, first: string, tail: string, second: string, rest: string)
    requires Blanked(s, first, tail) && Blanked(tail, second, rest)
    requires second != [] && NoSpace(second) && tail != []
    ensures exists sp, gap ::
      (AllSpace(sp) && AllSpace(gap) && gap != [] && s == sp + first + gap + second + rest)
  {
    BlankedSplit(s, first, tail);
    BlankedSplit(tail, second, rest);
    var sp := s[..|s| - |first| - |tail|];
    var gap := tail[..|tail| - |second| - |rest|];
    var n := |tail| - |second| - |rest|;
    assert tail[n] == second[0];
    assert IsSpace(tail[0]) && !IsSpace(tail[n]);
    assert |gap| == n != 0;
    assert s == sp + first + gap + second + rest;
  }

  /** Conversely, two words read by ScanPair stand in the input in exactly that shape. */
  lemma ScanPairShape(s: string, first: string, second: string)
    requires ScanPair(s) == Some((first, second))
    ensures exists sp, gap, rest ::
      (AllSpace(sp) && AllSpace(gap) && gap != [] && (rest == [] || IsSpace(rest[0])) &&
       s == sp + first + gap + second + rest)
  {
    var p := ScanWord(s);
    assert p.Some? && p.value.0 == first;
    var tail := p.value.1;
    var q := ScanWord(tail);
    assert q.Some? && q.value.0 == second;
    var rest := q.value.1;
    assert Blanked(s, first, tail) && Blanked(tail, second, rest);
    BlankedTwice(s, first, tail, second, rest);
  }

  /** "kw", then two words that are each led by white space, read back as both words. */
  lemma ScanPairAfterOf(kw: string, sp: string, first: string, gap: string, second: string, rest: string)
    requires AllSpace(sp) && AllSpace(gap) && gap != []
    requires first != [] && NoSpace(first) && second != [] && NoSpace(second)
    requires rest == [] || IsSpace(rest[0])
    ensures ScanPairAfter(kw + sp + first + gap + second + rest, kw) == Some((first, second))
  {
    var s := kw + sp + first + gap + second + rest;
    assert s[..|kw|] == kw;
    assert s[|kw|..] == sp + first + gap + second + rest;
    ScanPairOf(sp, first, gap, second, rest);
  }

  /** A single word, with nothing but white space around it, is not a pair. */
  lemma ScanPairOfOne(sp: string, first: string, rest: string)
    requires AllSpace(sp) && AllSpace(rest)
    requires first != [] && NoSpace(first)
    ensures ScanPair(sp + first + rest) == None
  {
    ScanWordAfterBlanks(sp, first, rest);
  }

  /** The part of a buffer that C string functions see: everything before the first NUL. */
  function CString(s: string): (r: string)
    ensures r <= s && '\0' !in r
    ensures |r| == |s| || s[|r|] == '\0'
  {
    if s == [] || s[0] == '\0' then [] else [s[0]] + CString(s[1..])
  }

  lemma {:induction false} CStringOfPlain(s: string)
    requires '\0' !in s
    ensures CString(s) == s
  {
    if s != [] {
      CStringOfPlain(s[1..]);
    }
  }

  /** snprintf into a buffer of n + 1 bytes keeps at most n characters. */
  function Truncate(s: string, n: nat): (r: string)
    ensures r <= s && |r| <= n
    ensures |r| == if |s| <= n then |s| else n
    ensures |s| <= n ==> r == s
  {
    if |s| <= n then s else s[..n]
  }

  predicate IsDigit(c: char) {
    '0' <= c <= '9'
  }

  function DigitChar(d: nat): (c: char)
    requires d < 10
    ensures IsDigit(c)
  {
    "0123456789"[d]
  }

  /** The decimal digits of a natural number, most significant first, without leading zeros. */
  function Digits(n: nat): (r: string)
    ensures r != [] && forall i :: 0 <= i < |r| ==> IsDigit(r[i])
    ensures |r| > 1 ==> r[0] != '0'
  {
    if n < 10 then [DigitChar(n)] else Digits(n / 10) + [DigitChar(n % 10)]
  }

  /** printf's %d: an optional minus sign, then the digits. */
  function Decimal(n: int): (r: string)
    ensures r != [] && NoSpace(r) && '\0' !in r
    ensures forall i :: 0 <= i < |r| ==> IsDigit(r[i]) || (i == 0 && r[i] == '-')
    ensures (r[0] == '-') <==> n < 0
  {
    if n < 0 then "-" + Digits(-n) else Digits(n)
  }

  /** The number a string of decimal digits stands for, as strtol reads it. */
  function DigitsValue(s: string): nat
    requires forall i :: 0 <= i < |s| ==> IsDigit(s[i])
  {
    if s == [] then 0
    else
      assert IsDigit(s[|s| - 1]);
      DigitsValue(s[..|s| - 1]) * 10 + (s[|s| - 1] as int - '0' as int)
  }

  /** %d is the inverse of reading the number back: the digits printed denote n. */
  lemma {:induction false} DigitsRoundTrip(n: nat)
    ensures DigitsValue(Digits(n)) == n
  {
    if n >= 10 {
      DigitsRoundTrip(n / 10);
      var r := Digits(n);
      assert r[..|r| - 1] == Digits(n / 10);
      assert "0123456789"[n % 10] as int - '0' as int == n % 10;
    } else {
      assert "0123456789"[n] as int - '0' as int == n;
    }
  }

  lemma DigitsInjective(a: nat, b: nat)
    requires Digits(a) == Digits(b)
    ensures a == b
  {
    DigitsRoundTrip(a);
    DigitsRoundTrip(b);
  }

  /** Distinct numbers print differently. */
  lemma DecimalInjective(m: int, n: int)
    requires Decimal(m) == Decimal(n)
    ensures m == n
  {
    if m < 0 {
      assert n < 0;
      assert Digits(-m) == Decimal(m)[1..];
      assert Digits(-n) == Decimal(n)[1..];
      DigitsInjective(-m, -n);
    } else {
      assert n >= 0;
      DigitsInjective(m, n);
    }
  }
}
