/** The parts of Go's strings and strconv packages that the control lines and names go through. */
module Text {
  import opened Bytes

  /** unicode.IsSpace. */
  predicate IsSpace(c: char) {
    || '\t' <= c <= '\r' || c == ' ' || c == '\U{85}' || c == '\U{A0}' || c == '\U{1680}'
    || '\U{2000}' <= c <= '\U{200A}' || c == '\U{2028}' || c == '\U{2029}' || c == '\U{202F}'
    || c == '\U{205F}' || c == '\U{3000}'
  }

  /** A non-empty string without white space. */
  predicate IsWord(s: string) {
    s != [] && forall i | 0 <= i < |s| :: !IsSpace(s[i])
  }

  /** White space: among ASCII, tab to carriage return and the space. */
  lemma SpaceExactly(c: char)
    ensures c as int < 128 ==> (IsSpace(c) <==> 9 <= c as int <= 13 || c as int == 32)
    ensures c as int >= 128 ==> (IsSpace(c) <==>
              c as int in {0x85, 0xA0, 0x1680, 0x2028, 0x2029, 0x202F, 0x205F, 0x3000} || 0x2000 <= c as int <= 0x200A)
  {
  }

  // ---------------------------------------------------------------- trimming and splitting

  function TrimLeft(s: string): string {
    if s != [] && IsSpace(s[0]) then TrimLeft(s[1..]) else s
  }

  function TrimRight(s: string): string {
    if s != [] && IsSpace(s[|s| - 1]) then TrimRight(s[..|s| - 1]) else s
  }

  function TrimSpace(s: string): string {
    TrimRight(TrimLeft(s))
  }

  ghost predicate AllSpace(s: string) {
    forall i | 0 <= i < |s| :: IsSpace(s[i])
  }

  lemma {:induction false} TrimLeftExactly(s: string) returns (k: nat)
    ensures k <= |s| && AllSpace(s[..k]) && TrimLeft(s) == s[k..] && (k < |s| ==> !IsSpace(s[k]))
  {
    if s != [] && IsSpace(s[0]) {
      k := TrimLeftExactly(s[1..]);
      assert s[..k + 1] == [s[0]] + s[1..][..k] && s[k + 1..] == s[1..][k..];
      k := k + 1;
    } else {
      k := 0;
    }
  }

  lemma {:induction false} TrimRightExactly(s: string) returns (k: nat)
    ensures k <= |s| && AllSpace(s[k..]) && TrimRight(s) == s[..k] && (k > 0 ==> !IsSpace(s[k - 1]))
  {
    if s != [] && IsSpace(s[|s| - 1]) {
      k := TrimRightExactly(s[..|s| - 1]);
      assert s[k..] == s[..|s| - 1][k..] + [s[|s| - 1]] && s[..|s| - 1][..k] == s[..k];
    } else {
      k := |s|;
    }
  }

  /** Trimming takes exactly the white space at both ends. */
  lemma TrimExactly(s: string) returns (a: nat, b: nat)
    ensures a <= b <= |s| && TrimSpace(s) == s[a..b] && AllSpace(s[..a]) && AllSpace(s[b..])
    ensures a < b ==> !IsSpace(s[a]) && !IsSpace(s[b - 1])
  {
    a := TrimLeftExactly(s);
    var k := TrimRightExactly(s[a..]);
    b := a + k;
    assert s[a..][..k] == s[a..b] && s[a..][k..] == s[b..];
  }

  /** Length of the leading run without white space. */
  function WordEnd(s: string): (n: nat)
    ensures n <= |s| && (n < |s| ==> IsSpace(s[n])) && (forall i | 0 <= i < n :: !IsSpace(s[i]))
    ensures s != [] && !IsSpace(s[0]) ==> n > 0
  {
    if s == [] || IsSpace(s[0]) then 0 else 1 + WordEnd(s[1..])
  }

  function Fields(s: string): (fs: seq<string>)
    ensures forall i | 0 <= i < |fs| :: IsWord(fs[i])
    decreases |s|
  {
    if s == [] then []
    else if IsSpace(s[0]) then Fields(s[1..])
    else var n := WordEnd(s); [s[..n]] + Fields(s[n..])
  }

  lemma FieldsWord(w: string, rest: string)
    requires IsWord(w) && (rest == [] || IsSpace(rest[0]))
    ensures Fields(w + rest) == [w] + Fields(rest)
  {
    var s := w + rest;
    var n := WordEnd(s);
    assert s[|w|..] == rest && s[..|w|] == w;
    assert forall i | 0 <= i < |w| :: s[i] == w[i];
    assert rest != [] ==> s[|w|] == rest[0];
  }

  /** A word, one space, and whatever follows. */
  lemma FieldsSpaced(w: string, rest: string)
    requires IsWord(w)
    ensures Fields(w + " " + rest) == [w] + Fields(rest)
  {
    FieldsWord(w, " " + rest);
    assert (" " + rest)[1..] == rest;
    Regroup(w, " ", rest);
  }

  lemma FieldsOne(w: string)
    requires IsWord(w)
    ensures Fields(w) == [w]
  {
    FieldsWord(w, []);
    assert w + [] == w;
  }

  lemma {:induction false} FieldsSpaceBehind(s: string, c: char)
    requires IsSpace(c)
    ensures Fields(s + [c]) == Fields(s)
    decreases |s|
  {
    hide IsSpace;
    if s == [] {
      assert [c][1..] == [];
      assert s + [c] == [c];
    } else if IsSpace(s[0]) {
      FieldsSpaceBehind(s[1..], c);
      assert (s + [c])[1..] == s[1..] + [c];
    } else {
      var n := WordEnd(s);
      FieldsSpaceBehind(s[n..], c);
      FieldsWord(s[..n], s[n..] + [c]);
      Regroup(s[..n], s[n..], [c]);
      assert s == s[..n] + s[n..];
    }
  }

  /** Splitting does not see the white space that trimming removes. */
  lemma {:induction false} FieldsTrimRight(s: string)
    ensures Fields(TrimRight(s)) == Fields(s)
  {
    hide IsSpace, Fields;
    if s != [] && IsSpace(s[|s| - 1]) {
      FieldsTrimRight(s[..|s| - 1]);
      FieldsSpaceBehind(s[..|s| - 1], s[|s| - 1]);
      assert s[..|s| - 1] + [s[|s| - 1]] == s;
    }
  }

  lemma {:induction false} FieldsTrimLeft(s: string)
    ensures Fields(TrimLeft(s)) == Fields(s)
  {
    if s != [] && IsSpace(s[0]) {
      FieldsTrimLeft(s[1..]);
    }
  }

  lemma FieldsTrim(s: string)
    ensures Fields(TrimSpace(s)) == Fields(s)
  {
    FieldsTrimLeft(s);
    FieldsTrimRight(TrimLeft(s));
  }

  /** A line without white space at its ends loses only its newline. */
  lemma TrimLine(s: string)
    requires s != [] && !IsSpace(s[0]) && !IsSpace(s[|s| - 1])
    ensures TrimSpace(s + "\n") == s && TrimSpace(s) == s
  {
    var l := s + "\n";
    assert l[0] == s[0] && l[..|l| - 1] == s && l[|l| - 1] == '\n';
    assert TrimLeft(l) == l && TrimLeft(s) == s && TrimRight(s) == s;
    assert TrimRight(l) == TrimRight(s);
  }

  // ---------------------------------------------------------------- decimal integers

  const MIN_INT := -0x8000_0000_0000_0000
  const MAX_INT := 0x7fff_ffff_ffff_ffff

  predicate Int64(n: int) {
    MIN_INT <= n <= MAX_INT
  }

  predicate IsDigit(c: char) {
    '0' <= c <= '9'
  }

  function Digits(n: nat): (s: string)
    ensures IsWord(s) && forall i | 0 <= i < |s| :: IsDigit(s[i])
  {
    var last := [('0' as int + n % 10) as char];
    if n < 10 then last else Digits(n / 10) + last
  }

  function Itoa(n: int): (s: string)
    ensures IsWord(s)
  {
    if n < 0 then "-" + Digits(-n) else Digits(n)
  }

  /** The value of a string of digits, most significant first. */
  function Value(s: string): (n: Option<int>)
    ensures n.Some? ==> n.value >= 0
  {
    if s == [] then Some(0) else
    var c := s[|s| - 1];
    var high := Value(s[..|s| - 1]);
    if high.Some? && IsDigit(c) then Some(10 * high.value + (c as int - '0' as int)) else None
  }

  /** Decimal, most significant digit first. */
  lemma ValueExactly(s: string, c: char)
    ensures Value([]) == Some(0)
    ensures Value(s + [c]) == if Value(s).Some? && '0' <= c <= '9'
                              then Some(10 * Value(s).value + (c as int - '0' as int)) else None
  {
    assert (s + [c])[..|s|] == s;
  }

  /** strconv.Atoi on a 64-bit machine. */
  function Atoi(s: string): Option<int> {
    var signed := s != [] && (s[0] == '-' || s[0] == '+');
    var digits := if signed then s[1..] else s;
    if digits == [] then None else
    match Value(digits)
    case None => None
    case Some(v) =>
      var n: int := if s[0] == '-' then -v else v;
      if Int64(n) then Some(n) else None
  }

  lemma {:induction false} ValueDigits(n: nat)
    ensures Value(Digits(n)) == Some(n)
  {
    var s := Digits(n);
    if n < 10 {
      assert s[..0] == [];
    } else {
      ValueDigits(n / 10);
      assert s[..|s| - 1] == Digits(n / 10);
    }
  }

  lemma DigitsStart(n: nat)
    ensures Digits(n) != [] && Digits(n)[0] != '-' && Digits(n)[0] != '+'
  {
    assert IsDigit(Digits(n)[0]);
  }

  lemma AtoiItoa(n: int)
    requires Int64(n)
    ensures Atoi(Itoa(n)) == Some(n)
  {
    hide Value, Digits, IsWord;
    if n < 0 {
      ValueDigits(-n);
      DigitsStart(-n);
      assert Itoa(n)[1..] == Digits(-n);
    } else {
      ValueDigits(n);
      DigitsStart(n);
    }
  }

  // ---------------------------------------------------------------- case

  /** strings.ToUpper, as far as it can produce an ASCII letter. */
  function Upper(c: char): char {
    if 'a' <= c <= 'z' then (c as int - 32) as char
    else if c == '\U{131}' then 'I' else if c == '\U{17F}' then 'S' else c
  }

  /** strings.ToLower, as far as it can produce an ASCII letter. */
  function Lower(c: char): char {
    if 'A' <= c <= 'Z' then (c as int + 32) as char
    else if c == '\U{130}' then 'i' else if c == '\U{212A}' then 'k' else c
  }

  /** ASCII letters change case, other ASCII characters do not change. */
  lemma CaseExactly(c: char)
    requires c as int < 128
    ensures Upper(c) == if 'a' <= c <= 'z' then (c as int - 32) as char else c
    ensures Lower(c) == if 'A' <= c <= 'Z' then (c as int + 32) as char else c
  {
  }

  function ToUpper(s: string): (r: string)
    ensures |r| == |s| && forall i | 0 <= i < |s| :: r[i] == Upper(s[i])
  {
    seq(|s|, i requires 0 <= i < |s| => Upper(s[i]))
  }

  function ToLower(s: string): (r: string)
    ensures |r| == |s| && forall i | 0 <= i < |s| :: r[i] == Lower(s[i])
  {
    seq(|s|, i requires 0 <= i < |s| => Lower(s[i]))
  }

  // ---------------------------------------------------------------- order

  /** Go's `<` on strings. */
  predicate Less(s: string, t: string) {
    t != [] && (s == [] || s[0] < t[0] || (s[0] == t[0] && Less(s[1..], t[1..])))
  }

  /** After a common prefix of `k` characters `s` ends, or goes on with a smaller character. */
  predicate SmallerAt(s: string, t: string, k: nat) {
    k <= |s| && k < |t| && s[..k] == t[..k] && (k == |s| || s[k] < t[k])
  }

  lemma {:induction false} LessExactly(s: string, t: string)
    ensures Less(s, t) <==> exists k: nat :: SmallerAt(s, t, k)
  {
    if s != [] && t != [] && s[0] == t[0] {
      LessExactly(s[1..], t[1..]);
      if Less(s[1..], t[1..]) {
        var k: nat :| SmallerAt(s[1..], t[1..], k);
        assert s[..k + 1] == [s[0]] + s[1..][..k] && t[..k + 1] == [t[0]] + t[1..][..k];
        assert SmallerAt(s, t, k + 1);
      }
      if k: nat :| SmallerAt(s, t, k) {
        assert k > 0 && s[1..][..k - 1] == s[..k][1..] && t[1..][..k - 1] == t[..k][1..];
        assert SmallerAt(s[1..], t[1..], k - 1);
      }
    } else if Less(s, t) {
      assert SmallerAt(s, t, 0);
    } else {
      forall k: nat
        ensures !SmallerAt(s, t, k)
      {
        assert 0 < k <= |s| && k < |t| ==> s[..k][0] == s[0] && t[..k][0] == t[0];
      }
    }
  }

  lemma {:induction false} LessTrichotomy(s: string, t: string)
    ensures Less(s, t) || s == t || Less(t, s)
    ensures !(Less(s, t) && Less(t, s)) && !Less(s, s)
  {
    if s != [] && t != [] && s[0] == t[0] {
      LessTrichotomy(s[1..], t[1..]);
      assert s == [s[0]] + s[1..] && t == [t[0]] + t[1..];
    } else if s == t {
    }
    if s != [] {
      LessTrichotomy(s[1..], s[1..]);
    }
  }

  lemma {:induction false} LessTransitive(s: string, t: string, u: string)
    requires Less(s, t) && Less(t, u)
    ensures Less(s, u)
  {
    if s != [] && s[0] == t[0] && t[0] == u[0] {
      LessTransitive(s[1..], t[1..], u[1..]);
    }
  }
}
