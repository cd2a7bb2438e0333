/** The identity of a case: its phase, two padded numbers and the cell, and how it is read back. */
module CaseIdentity {

  function Decimal(n: nat): string {
    if n < 10 then ["0123456789"[n]] else Decimal(n / 10) + ["0123456789"[n % 10]]
  }

  function Zeros(n: nat): string {
    seq(n, i => '0')
  }

  function Filled(digits: string, width: int): string {
    Zeros(if |digits| < width then width - |digits| else 0) + digits
  }

  /** `f"{n:0{width}d}"` */
  function Padded(n: int, width: nat): string {
    if n < 0 then "-" + Filled(Decimal(-n), width - 1) else Filled(Decimal(n), width)
  }

  function CaseId(phase: string, iteration: int, index: int, cell: string): string {
    phase + "-" + Padded(iteration, 2) + "-" + Padded(index, 4) + "-" + cell
  }

  // ----- Reading numbers -----------------------------------------------------------------------

  predicate AllDigits(text: string) {
    forall i :: 0 <= i < |text| ==> '0' <= text[i] <= '9'
  }

  function Value(text: string): nat
    requires AllDigits(text)
  {
    if text == "" then 0
    else 10 * Value(text[..|text| - 1]) + (text[|text| - 1] as int - '0' as int)
  }

  /** The digits of `n`, with zeros in front up to the width and no further. */
  predicate Spells(text: string, n: nat, width: nat) {
    && AllDigits(text) && Value(text) == n
    && |text| >= width && (|text| > width ==> n != 0 && text[0] != '0')
  }

  lemma DigitReads(n: nat)
    requires n < 10
    ensures '0' <= "0123456789"[n] <= '9' && "0123456789"[n] as int - '0' as int == n
  {
  }

  lemma {:induction false} DecimalReads(n: nat)
    ensures Decimal(n) != "" && AllDigits(Decimal(n)) && Value(Decimal(n)) == n
    ensures n > 0 ==> Decimal(n)[0] != '0'
    ensures n == 0 ==> |Decimal(n)| == 1
  {
    if n < 10 {
      DigitReads(n);
      assert Decimal(n)[..0] == "";
    } else {
      DecimalReads(n / 10);
      DigitReads(n % 10);
      var front := Decimal(n / 10);
      assert Decimal(n)[..|front|] == front;
    }
  }

  lemma {:induction false} ZerosRead(k: nat, text: string)
    requires AllDigits(text)
    ensures AllDigits(Zeros(k) + text) && Value(Zeros(k) + text) == Value(text)
    decreases |text|, k
  {
    var all := Zeros(k) + text;
    if text != "" {
      var front := text[..|text| - 1];
      ZerosRead(k, front);
      assert all[..|all| - 1] == Zeros(k) + front;
    } else if k > 0 {
      ZerosRead(k - 1, "");
      assert all[..|all| - 1] == Zeros(k - 1) + "";
    }
  }

  lemma FilledReads(digits: string, n: nat, width: nat)
    requires digits != "" && AllDigits(digits) && Value(digits) == n
    requires if n > 0 then digits[0] != '0' else |digits| == 1
    requires width > 0
    ensures Spells(Filled(digits, width), n, width)
  {
    var k := if |digits| < width then width - |digits| else 0;
    ZerosRead(k, digits);
    assert k == 0 ==> Zeros(k) + digits == digits;
  }

  lemma PaddedReads(n: nat, width: nat)
    requires width > 0
    ensures Spells(Padded(n, width), n, width)
  {
    DecimalReads(n);
    FilledReads(Decimal(n), n, width);
  }

  /** A sign takes one of the places. */
  lemma NegativeReads(n: int, width: nat)
    requires n < 0 && width > 1
    ensures exists text :: Padded(n, width) == "-" + text && Spells(text, -n, width - 1)
  {
    DecimalReads(-n);
    FilledReads(Decimal(-n), -n, width - 1);
    var text := Filled(Decimal(-n), width - 1);
    assert Padded(n, width) == "-" + text && Spells(text, -n, width - 1);
  }

  // ----- Reading an identity -------------------------------------------------------------------

  /** What stands in front of the first dash, and what follows it. */
  lemma DashSplits(a: string, u: string, b: string, v: string)
    requires '-' !in a && '-' !in b && a + "-" + u == b + "-" + v
    ensures a == b && u == v
  {
    DashInside(a, u, b, v);
    DashInside(b, v, a, u);
    var s, t := a + "-" + u, b + "-" + v;
    assert s[..|a|] == a && t[..|b|] == b;
    assert s[|a| + 1..] == u && t[|b| + 1..] == v;
  }

  lemma DashInside(a: string, u: string, b: string, v: string)
    requires '-' !in b
    ensures |a| < |b| ==> a + "-" + u != b + "-" + v
  {
    if |a| < |b| {
      assert (a + "-" + u)[|a|] == '-' && (b + "-" + v)[|a|] == b[|a|];
    }
  }

  lemma DigitsHaveNoDash(text: string)
    requires AllDigits(text)
    ensures '-' !in text
  {
  }

  lemma IdentityJoins(phase: string, a: string, b: string, cell: string)
    ensures phase + "-" + a + "-" + b + "-" + cell == phase + "-" + (a + "-" + (b + "-" + cell))
  {
  }

  /** Phase, iteration of two and index of four digits or more, and cell, with dashes between them. */
  lemma CaseIdSpells(phase: string, iteration: nat, index: nat, cell: string)
    ensures exists a, b :: Spells(a, iteration, 2) && Spells(b, index, 4)
                           && CaseId(phase, iteration, index, cell) == phase + "-" + a + "-" + b + "-" + cell
  {
    PaddedReads(iteration, 2);
    PaddedReads(index, 4);
  }

  /** An identity says what it is made of. */
  lemma CaseIdReads(phase: string, iteration: nat, index: nat, cell: string,
                    phase': string, iteration': nat, index': nat, cell': string)
    requires '-' !in phase && '-' !in phase'
    requires CaseId(phase, iteration, index, cell) == CaseId(phase', iteration', index', cell')
    ensures phase == phase' && iteration == iteration' && index == index' && cell == cell'
  {
    var a, b := Padded(iteration, 2), Padded(index, 4);
    var a', b' := Padded(iteration', 2), Padded(index', 4);
    PaddedReads(iteration, 2);
    PaddedReads(iteration', 2);
    PaddedReads(index, 4);
    PaddedReads(index', 4);
    IdentityJoins(phase, a, b, cell);
    IdentityJoins(phase', a', b', cell');
    DashSplits(phase, a + "-" + (b + "-" + cell), phase', a' + "-" + (b' + "-" + cell'));
    DigitsHaveNoDash(a);
    DigitsHaveNoDash(a');
    DashSplits(a, b + "-" + cell, a', b' + "-" + cell');
    DigitsHaveNoDash(b);
    DigitsHaveNoDash(b');
    DashSplits(b, cell, b', cell');
  }
}
