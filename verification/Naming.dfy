/** internal/template/template.go: the name of a stamped revision, and why it identifies the revision. */
module Naming {

  function Digits(n: nat): string {
    if n < 10 then ["0123456789"[n]] else Digits(n / 10) + ["0123456789"[n % 10]]
  }

  function NameOf(group: string, n: nat): string {
    group + "-" + Digits(n)
  }

  lemma {:induction false} DigitsHaveNoDash(n: nat)
    ensures Digits(n) != [] && forall k :: 0 <= k < |Digits(n)| ==> Digits(n)[k] != '-'
  {
    if n >= 10 {
      DigitsHaveNoDash(n / 10);
    }
  }

  lemma {:induction false} DigitsInjective(m: nat, n: nat)
    requires Digits(m) == Digits(n)
    ensures m == n
  {
    DigitsSplit(m);
    DigitsSplit(n);
    hide Digits;
    if m >= 10 && n >= 10 {
      DigitsInjective(m / 10, n / 10);
    }
  }

  /** The last digit of a number, and the digits before it. */
  lemma {:induction false} DigitsSplit(n: nat)
    ensures var d := Digits(n);
            d != [] && d[|d| - 1] == "0123456789"[n % 10]
            && if n < 10 then d[..|d| - 1] == [] else d[..|d| - 1] == Digits(n / 10) != []
  {
    DigitsHaveNoDash(n / 10);
  }

  /** The value of a decimal numeral. */
  function ValueOf(digits: string): int {
    if digits == [] then 0 else 10 * ValueOf(digits[..|digits| - 1]) + (digits[|digits| - 1] as int - '0' as int)
  }

  /** The suffix of a stamped name is the plain decimal numeral of its number. */
  lemma {:induction false} DigitsAreDecimal(n: nat)
    ensures ValueOf(Digits(n)) == n
    ensures forall k :: 0 <= k < |Digits(n)| ==> '0' <= Digits(n)[k] <= '9'
    ensures Digits(n)[0] == '0' <==> n == 0
  {
    DigitsSplit(n);
    DigitIs(n % 10);
    if n < 10 {
      assert Digits(n)[..|Digits(n)| - 1] == [];
    } else {
      DigitsAreDecimal(n / 10);
    }
  }

  lemma {:induction false} DigitIs(d: nat)
    requires d < 10
    ensures "0123456789"[d] as int == '0' as int + d
  {
  }

  /** Two stamped names are equal only for the same number in the same group, whatever the group's
      name; so a create that meets its name meets its number. */
  lemma {:induction false} NamesIdentify(g: string, m: nat, h: string, n: nat)
    ensures NameOf(g, m) == NameOf(h, n) <==> g == h && m == n
  {
    if NameOf(g, m) == NameOf(h, n) {
      if |g| < |h| {
        DashInside(g, m, h, n);
      } else if |h| < |g| {
        DashInside(h, n, g, m);
      }
      var name := NameOf(g, m);
      assert name[..|g|] == g && name[..|h|] == h;
      assert name[|g| + 1..] == Digits(m) && name[|h| + 1..] == Digits(n);
      DigitsInjective(m, n);
    }
  }

  /** The dash before the shorter of two digit groups would lie inside the longer one. */
  lemma {:induction false} DashInside(g: string, m: nat, h: string, n: nat)
    requires |g| < |h|
    ensures NameOf(g, m) != NameOf(h, n)
  {
    DigitsHaveNoDash(m);
    assert NameOf(h, n)[|h|] == '-';
    assert |h| < |NameOf(g, m)| ==> NameOf(g, m)[|h|] == Digits(m)[|h| - |g| - 1];
  }
}
