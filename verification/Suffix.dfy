/** The "~<milliseconds>" suffix that keeps recycled names apart, and how restore takes it off. */
module Suffix {
  predicate IsDigit(c: char) {
    '0' <= c <= '9'
  }

  predicate AllDigits(s: string) {
    forall i :: 0 <= i < |s| ==> IsDigit(s[i])
  }

  function Digit(d: nat): (c: char)
    requires d < 10
    ensures IsDigit(c)
  {
    '0' + d as char
  }

  /** The decimal form `format!("{ms}")` gives. */
  function Decimal(n: nat): (s: string)
    ensures |s| >= 1 && AllDigits(s)
  {
    if n < 10 then [Digit(n)] else Decimal(n / 10) + [Digit(n % 10)]
  }

  /** The number a string of digits stands for. */
  function NumberOf(s: string): nat
    requires AllDigits(s)
  {
    if s == "" then 0 else 10 * NumberOf(s[..|s| - 1]) + (s[|s| - 1] as int - '0' as int)
  }

  /** The decimal form stands for its number, without a leading zero. */
  lemma {:induction false} DecimalReads(n: nat)
    ensures NumberOf(Decimal(n)) == n && (Decimal(n)[0] == '0' ==> n == 0)
  {
    var s := Decimal(n);
    if n < 10 {
      assert s[..0] == "" && NumberOf("") == 0;
    } else {
      DecimalReads(n / 10);
      assert s[..|s| - 1] == Decimal(n / 10);
    }
  }

  function Power10(k: nat): nat {
    if k == 0 then 1 else 10 * Power10(k - 1)
  }

  /** A decimal has more than k digits exactly when the number has reached 10^k. */
  lemma {:induction false} DecimalLength(n: nat, k: nat)
    requires k >= 1
    ensures |Decimal(n)| > k <==> n >= Power10(k)
  {
    if k == 1 {
      assert Power10(1) == 10 * Power10(0);
      if n >= 10 { assert |Decimal(n / 10)| >= 1; }
    } else if n < 10 {
      PowerGrows(k);
    } else {
      DecimalLength(n / 10, k - 1);
    }
  }

  lemma {:induction false} PowerGrows(k: nat)
    requires k >= 1
    ensures Power10(k) >= 10
  {
    if k > 1 { PowerGrows(k - 1); }
  }

  /** Position of the last '~', if any (`rfind`). */
  function LastTilde(name: string): (at: int)
    ensures -1 <= at < |name|
    ensures at >= 0 ==> name[at] == '~'
    ensures forall k :: at < k < |name| ==> name[k] != '~'
  {
    if name == "" then -1
    else if name[|name| - 1] == '~' then |name| - 1
    else LastTilde(name[..|name| - 1])
  }

  predicate HasSuffix(name: string) {
    var at := LastTilde(name);
    at >= 0 && |name| - at - 1 >= 10 && AllDigits(name[at + 1..])
  }

  /** strip_recycle_suffix */
  function Strip(name: string): string {
    if HasSuffix(name) then name[..LastTilde(name)] else name
  }

  function WithSuffix(name: string, ms: nat): string {
    name + "~" + Decimal(ms)
  }

  lemma TildeOfSuffixed(name: string, ms: nat)
    ensures LastTilde(WithSuffix(name, ms)) == |name|
    ensures WithSuffix(name, ms)[|name| + 1..] == Decimal(ms)
    ensures WithSuffix(name, ms)[..|name|] == name
  {
    var s := WithSuffix(name, ms);
    assert s[|name|] == '~';
    assert s[|name| + 1..] == Decimal(ms);
    forall k | |name| < k < |s| ensures s[k] != '~' {
      assert s[k] == Decimal(ms)[k - |name| - 1];
    }
  }

  /** Stripping undoes suffixing for every name exactly when the clock is past 10^9 ms. */
  lemma StripSuffixedIff(name: string, ms: nat)
    ensures Strip(WithSuffix(name, ms)) == name <==> ms >= 1_000_000_000
  {
    TildeOfSuffixed(name, ms);
    DecimalLength(ms, 9);
    assert Power10(9) == 1_000_000_000 by {
      assert Power10(3) == 1000;
      assert Power10(6) == 1_000_000;
    }
    assert |WithSuffix(name, ms)| == |name| + 1 + |Decimal(ms)|;
  }

  /** Stripping takes `base` out of a name exactly when the name is base, '~' and ten or more digits,
      and otherwise changes nothing: no name has two such readings. */
  lemma StripCuts(name: string, base: string, digits: string)
    requires |digits| >= 10 && AllDigits(digits)
    ensures name == base + "~" + digits ==> HasSuffix(name) && Strip(name) == base
    ensures HasSuffix(name) ==>
              name == Strip(name) + "~" + name[|Strip(name)| + 1..] && AllDigits(name[|Strip(name)| + 1..])
    ensures !HasSuffix(name) ==> Strip(name) == name
  {
    if name == base + "~" + digits {
      assert name[|base|] == '~' && name[|base| + 1..] == digits;
      forall k | |base| < k < |name| ensures name[k] != '~' {
        assert name[k] == digits[k - |base| - 1];
      }
      assert LastTilde(name) == |base|;
      assert name[..|base|] == base;
    }
  }
}
