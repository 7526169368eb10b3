/** Message ids of array access: the cache's name, an underscore and the index in decimal. */
module MessageIds {
  import opened Collections

  /** std::to_string of an index. */
  function ToString(n: nat): (s: string)
    ensures s != [] && forall i :: 0 <= i < |s| ==> '0' <= s[i] <= '9'
  {
    var digit := ('0' as int + n % 10) as char;
    if n < 10 then [digit] else ToString(n / 10) + [digit]
  }

  predicate Digits(s: string)
  {
    forall i :: 0 <= i < |s| ==> '0' <= s[i] <= '9'
  }

  function Value(s: string): nat
    requires Digits(s)
  {
    if s == [] then 0 else Value(s[..|s| - 1]) * 10 + (s[|s| - 1] as int - '0' as int)
  }

  const INT_MAX := 0x7fff_ffff
  const INT_MIN := -0x8000_0000
  const SIZE_COUNT := 0x1_0000_0000_0000_0000

  predicate Blank(c: char)
  {
    c == ' ' || '\t' <= c <= '\r'
  }

  function SkipBlanks(s: string): string
  {
    if s != [] && Blank(s[0]) then SkipBlanks(s[1..]) else s
  }

  /** How many digits a string starts with. */
  function DigitCount(s: string): (n: nat)
    ensures n <= |s| && Digits(s[..n])
    ensures n < |s| ==> !('0' <= s[n] <= '9')
  {
    if s == [] || !('0' <= s[0] <= '9') then 0
    else
      var n := DigitCount(s[1..]);
      assert forall i :: 1 <= i <= n ==> s[i] == s[1..][i - 1];
      1 + n
  }

  /** The digits a string starts with. */
  function Unsigned(s: string): Option<nat>
  {
    var n := DigitCount(s);
    if n == 0 then None else Some(Value(s[..n]))
  }

  function AsInt(v: int): Option<int>
  {
    if INT_MIN <= v <= INT_MAX then Some(v) else None
  }

  function Signed(t: string): Option<int>
  {
    var signed := t != [] && (t[0] == '-' || t[0] == '+');
    match Unsigned(if signed then t[1..] else t)
    case None => None
    case Some(v) => AsInt(if signed && t[0] == '-' then 0 - v else v)
  }

  /** std::stoi: blanks, a sign, then the digits up to the first other character; None when it throws,
      for want of a digit or because the value is no int. */
  function Stoi(s: string): Option<int>
  {
    Signed(SkipBlanks(s))
  }

  /** An int stored as a size_t. */
  function AsSize(v: int): nat
    requires -SIZE_COUNT <= v
  {
    if v < 0 then SIZE_COUNT + v else v
  }

  function Power10(n: nat): nat
  {
    if n == 0 then 1 else 10 * Power10(n - 1)
  }

  lemma Shifted(a: nat, p: nat, v: nat, d: nat)
    ensures (a * p + v) * 10 + d == a * (10 * p) + (v * 10 + d)
  {
    assert a * (10 * p) == a * p * 10;
  }

  lemma ValueSnoc(s: string, c: char)
    requires Digits(s) && '0' <= c <= '9'
    ensures Digits(s + [c]) && Value(s + [c]) == Value(s) * 10 + (c as int - '0' as int)
  {
    assert (s + [c])[..|s|] == s;
  }

  /** Digits are worth ten times as much per place. */
  lemma {:induction false} PlaceValue(s: string, t: string)
    requires Digits(s) && Digits(t)
    ensures Digits(s + t) && Value(s + t) == Value(s) * Power10(|t|) + Value(t)
    decreases |t|
  {
    if t == [] {
      assert s + t == s;
    } else {
      var n := |t| - 1;
      var t0, c := t[..n], t[n];
      PlaceValue(s, t0);
      assert s + t == (s + t0) + [c] && t == t0 + [c];
      NextPlace(s, t0, c, Power10(n));
    }
  }

  lemma NextPlace(s: string, t: string, c: char, p: nat)
    requires Digits(s) && Digits(t) && Digits(s + t) && '0' <= c <= '9' && Value(s + t) == Value(s) * p + Value(t)
    ensures Digits(s + t + [c]) && Digits(t + [c]) && Value(s + t + [c]) == Value(s) * (10 * p) + Value(t + [c])
  {
    ValueSnoc(s + t, c);
    ValueSnoc(t, c);
    Shifted(Value(s), p, Value(t), c as int - '0' as int);
  }

  lemma {:induction false} DigitsCounted(digits: string, rest: string)
    requires Digits(digits) && (rest != [] ==> !('0' <= rest[0] <= '9'))
    ensures DigitCount(digits + rest) == |digits|
  {
    if digits == [] {
      assert digits + rest == rest;
    } else {
      DigitsCounted(digits[1..], rest);
      assert (digits + rest)[1..] == digits[1..] + rest;
    }
  }

  lemma UnsignedReads(digits: string, rest: string)
    requires digits != [] && Digits(digits) && (rest != [] ==> !('0' <= rest[0] <= '9'))
    ensures Unsigned(digits + rest) == Some(Value(digits))
  {
    DigitsCounted(digits, rest);
    assert (digits + rest)[..|digits|] == digits;
  }

  lemma {:induction false} BlanksSkipped(blanks: string, body: string)
    requires (forall i :: 0 <= i < |blanks| ==> Blank(blanks[i])) && body != [] && !Blank(body[0])
    ensures SkipBlanks(blanks + body) == body
  {
    if blanks == [] {
      assert blanks + body == body;
    } else {
      BlanksSkipped(blanks[1..], body);
      assert (blanks + body)[1..] == blanks[1..] + body;
    }
  }

  /** What stoi reads: any blanks, then digits up to the first character that is none, ... */
  lemma StoiReads(blanks: string, digits: string, rest: string)
    requires (forall i :: 0 <= i < |blanks| ==> Blank(blanks[i]))
    requires digits != [] && Digits(digits) && (rest != [] ==> !('0' <= rest[0] <= '9'))
    ensures Stoi(blanks + (digits + rest)) == if Value(digits) <= 0x7fff_ffff then Some(Value(digits)) else None
  {
    UnsignedReads(digits, rest);
    BlanksSkipped(blanks, digits + rest);
  }

  /** ... with at most one sign before them. */
  lemma StoiReadsSigned(blanks: string, sign: char, digits: string, rest: string)
    requires (forall i :: 0 <= i < |blanks| ==> Blank(blanks[i])) && (sign == '+' || sign == '-')
    requires digits != [] && Digits(digits) && (rest != [] ==> !('0' <= rest[0] <= '9'))
    ensures var v := if sign == '-' then 0 - Value(digits) else Value(digits);
            Stoi(blanks + ([sign] + (digits + rest))) == if -0x8000_0000 <= v <= 0x7fff_ffff then Some(v) else None
  {
    UnsignedReads(digits, rest);
    SignAfterBlanks(blanks, sign, digits + rest);
  }

  lemma SignAfterBlanks(blanks: string, sign: char, numeral: string)
    requires (forall i :: 0 <= i < |blanks| ==> Blank(blanks[i])) && (sign == '+' || sign == '-') && Unsigned(numeral).Some?
    ensures var v := Unsigned(numeral).value;
            Stoi(blanks + ([sign] + numeral)) == AsInt(if sign == '-' then 0 - v else v)
  {
    SignedReads(sign, numeral);
    BlanksSkipped(blanks, [sign] + numeral);
  }

  lemma SignedReads(sign: char, numeral: string)
    requires (sign == '+' || sign == '-') && Unsigned(numeral).Some?
    ensures var v := Unsigned(numeral).value; Signed([sign] + numeral) == AsInt(if sign == '-' then 0 - v else v)
  {
    assert ([sign] + numeral)[1..] == numeral;
  }

  lemma AllDigits(s: string)
    requires s != [] && Digits(s)
    ensures SkipBlanks(s) == s && DigitCount(s) == |s|
    ensures Stoi(s) == if Value(s) <= INT_MAX then Some(Value(s)) else None
  {
    assert s[..|s|] == s;
  }

  lemma {:induction false} ValueToString(n: nat)
    ensures Value(ToString(n)) == n
  {
    if n < 10 {
      assert ToString(n)[..0] == [];
    } else {
      ValueToString(n / 10);
      assert ToString(n)[..|ToString(n)| - 1] == ToString(n / 10);
    }
  }

  function IndexId(name: string, index: nat): string
  {
    name + "_" + ToString(index)
  }

  /** What get_all_indexes makes of one id; None is the failed assertion on its prefix or stoi's exception. */
  function IndexOf(name: string, id: string): Option<nat>
  {
    if |name| + 1 <= |id| && id[..|name| + 1] == name + "_" then
      match Stoi(id[|name| + 1..])
      case Some(v) => Some(AsSize(v))
      case None => None
    else None
  }

  /** Different indexes have different ids. */
  lemma IdsDiffer(name: string, i: nat, j: nat)
    requires IndexId(name, i) == IndexId(name, j)
    ensures i == j
  {
    ValueToString(i);
    ValueToString(j);
    assert IndexId(name, i)[|name| + 1..] == ToString(i);
    assert IndexId(name, j)[|name| + 1..] == ToString(j);
  }

  /** get_all_indexes reads an index back exactly when it fits in an int; beyond that stoi throws. */
  lemma IdParsesBack(name: string, i: nat)
    ensures IndexOf(name, IndexId(name, i)) == if i <= INT_MAX then Some(i) else None
  {
    ValueToString(i);
    AllDigits(ToString(i));
    var id := IndexId(name, i);
    assert id[..|name| + 1] == name + "_" && id[|name| + 1..] == ToString(i);
  }
}
