/** Agent identifiers and names: the checks on what a user types and the canonical form of an identifier. */
module AgentIds {
  import opened CText

  const LONG_MAX := 0x7fff_ffff_ffff_ffff
  const MAX_ID_LENGTH := 8

  predicate IsValidId(id: string) { |id| <= MAX_ID_LENGTH && AllDigits(id) }

  predicate IsNameChar(c: char) {
    '0' <= c <= '9' || 'a' <= c <= 'z' || 'A' <= c <= 'Z' || c == '-' || c == '_' || c == '.'
  }

  predicate IsValidName(name: string) {
    2 <= |name| <= 128 && forall i :: 0 <= i < |name| ==> IsNameChar(name[i])
  }

  method CheckId(id: string) returns (ok: bool)
    ensures ok <==> IsValidId(id)
  {
    if |id| > MAX_ID_LENGTH {
      return false;
    }
    for i := 0 to |id|
      invariant AllDigits(id[..i])
    {
      if !IsDigit(id[i]) {
        return false;
      }
      assert id[..i + 1] == id[..i] + [id[i]];
    }
    assert id[..|id|] == id;
    return true;
  }

  method CheckName(name: string) returns (ok: bool)
    ensures ok <==> IsValidName(name)
  {
    if |name| < 2 || |name| > 128 {
      return false;
    }
    for i := 0 to |name|
      invariant forall j :: 0 <= j < i ==> IsNameChar(name[j])
    {
      if !IsNameChar(name[i]) {
        return false;
      }
    }
    return true;
  }

  // ---------------------------------------------------------------- FormatID

  function Blanks(s: string): (n: nat)
    ensures n <= |s|
  {
    if s != "" && IsSpace(s[0]) then 1 + Blanks(s[1..]) else 0
  }

  function DigitRun(s: string): (n: nat)
    ensures n <= |s| && AllDigits(s[..n])
  {
    if s != "" && IsDigit(s[0]) then
      var n := DigitRun(s[1..]);
      assert s[..n + 1] == [s[0]] + s[1..][..n];
      n + 1
    else 0
  }

  function Clamp(n: int): int {
    if n > LONG_MAX then LONG_MAX else if n < -LONG_MAX - 1 then -LONG_MAX - 1 else n
  }

  /** The conversion from `long` to `int`, which keeps the low 32 bits. */
  function ToInt(n: int): (r: int)
    ensures -0x8000_0000 <= r < 0x8000_0000
    ensures -0x8000_0000 <= n < 0x8000_0000 ==> r == n
  {
    (n + 0x8000_0000) % 0x1_0000_0000 - 0x8000_0000
  }

  /** `strtol` in base ten: the number and the index where reading stopped. */
  function Strtol(s: string): (r: (int, nat))
    ensures r.1 <= |s|
  {
    var b := Blanks(s);
    var signed := b < |s| && (s[b] == '-' || s[b] == '+');
    var d := if signed then b + 1 else b;
    var run := DigitRun(s[d..]);
    if run == 0 then (0, 0)
    else
      var v: int := Value(s[d..][..run]);
      (Clamp(if signed && s[b] == '-' then -v else v), d + run)
  }

  /** `%03d`. */
  function Print3(n: int): string {
    if n >= 0 then Decimal3(n) else if n > -10 then "-0" + Decimal(-n) else "-" + Decimal(-n)
  }

  /** `FormatID`: a text that is a number as a whole becomes that number printed with `%03d`. */
  function FormatId(id: string): (r: string) {
    if id == "" then id
    else
      var (n, end) := Strtol(id);
      if end == |id| then Print3(ToInt(n)) else id
  }

  lemma {:induction false} DigitRunAll(s: string)
    requires AllDigits(s)
    ensures DigitRun(s) == |s|
  {
    if s != "" {
      DigitRunAll(s[1..]);
    }
  }

  lemma {:induction false} StrtolDigits(s: string)
    requires AllDigits(s) && s != ""
    ensures Strtol(s) == (Clamp(Value(s)), |s|)
  {
    DigitRunAll(s);
    assert s[0..] == s && s[..|s|] == s;
  }

  lemma {:induction false} StrtolMinus(t: string)
    requires AllDigits(t) && t != ""
    ensures Strtol("-" + t) == (Clamp(0 - Value(t)), |t| + 1)
  {
    var s := "-" + t;
    assert Blanks(s) == 0;
    assert s[1..] == t;
    DigitRunAll(t);
    assert t[..|t|] == t;
  }

  /** What `%03d` prints reads back as the same number. */
  lemma {:induction false} StrtolPrint3(n: int)
    requires -0x8000_0000 <= n < 0x8000_0000
    ensures Print3(n) != "" && Strtol(Print3(n)) == (n, |Print3(n)|)
  {
    hide Strtol, Decimal3, Decimal, Value;
    if n >= 0 {
      ValueOfDecimal3(n);
      StrtolDigits(Decimal3(n));
    } else {
      var t := if n > -10 then "0" + Decimal(-n) else Decimal(-n);
      ValueOfDecimal(-n);
      ValueOfZero(Decimal(-n));
      assert Print3(n) == "-" + t;
      StrtolMinus(t);
    }
  }

  /** Formatting twice is formatting once, for every text. */
  lemma {:induction false} FormatIdIdempotent(id: string)
    ensures FormatId(FormatId(id)) == FormatId(id)
  {
    if id != "" && Strtol(id).1 == |id| {
      StrtolPrint3(ToInt(Strtol(id).0));
    }
  }

  lemma {:induction false} DecimalLength(n: nat, k: nat)
    requires k > 0 && n < Pow10(k)
    ensures |Decimal(n)| <= k
  {
    if n >= 10 {
      assert Pow10(1) == 10;
      DecimalLength(n / 10, k - 1);
    }
  }

  /** On valid non-empty identifiers the form is canonical: it is again valid and fixed by the number alone. */
  lemma {:induction false} FormatIdCanonical(id: string)
    requires IsValidId(id) && id != ""
    ensures FormatId(id) == Decimal3(Value(id))
    ensures IsValidId(FormatId(id)) && FormatId(id) != ""
    ensures Value(id) < 100_000_000
  {
    ValueBound(id);
    PowersGrow(|id|, MAX_ID_LENGTH);
    assert Pow10(8) == 100_000_000;
    StrtolDigits(id);
    DecimalLength(Value(id), MAX_ID_LENGTH);
  }

  lemma {:induction false} PowersGrow(j: nat, k: nat)
    requires j <= k
    ensures Pow10(j) <= Pow10(k)
  {
    if j < k {
      PowersGrow(j, k - 1);
    }
  }

  /** Two valid identifiers collide after formatting exactly when they are the same number. */
  lemma {:induction false} FormatIdByNumber(a: string, b: string)
    requires IsValidId(a) && IsValidId(b) && a != "" && b != ""
    ensures FormatId(a) == FormatId(b) <==> Value(a) == Value(b)
  {
    FormatIdCanonical(a);
    FormatIdCanonical(b);
    ValueOfDecimal3(Value(a));
    ValueOfDecimal3(Value(b));
  }
}
