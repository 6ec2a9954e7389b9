/** The credit wallet: a ledger of credit purchases and of consumptions by
    formative actions, its two running totals and how each row is printed.
    Amounts are in euro cents. */
module CreditWallet {
  import opened Wrappers
  import Text

  datatype Kind = Purchase | Consumption

  datatype FormationRef = FormationRef(name: string, id: string)

  datatype Transaction = Transaction(
    id: string, date: string, formation: Option<FormationRef>,
    creditAmount: int, credits: int,
    costPerStudent: Option<int>, creditsPerStudent: Option<int>, students: Option<int>,
    kind: Kind)

  /** totalCreditAmount: purchases add their amount, consumptions subtract it. */
  function TotalCreditAmount(ts: seq<Transaction>): int {
    if ts == [] then 0
    else TotalCreditAmount(ts[..|ts| - 1]) + SignedAmount(ts[|ts| - 1])
  }

  function SignedAmount(t: Transaction): int {
    if t.kind == Purchase then t.creditAmount else -t.creditAmount
  }

  /** totalCredits: both branches of its conditional add `credits`. */
  function TotalCredits(ts: seq<Transaction>): int {
    if ts == [] then 0
    else TotalCredits(ts[..|ts| - 1]) + (if ts[|ts| - 1].kind == Purchase then ts[|ts| - 1].credits else ts[|ts| - 1].credits)
  }

  function Purchases(ts: seq<Transaction>): (r: seq<Transaction>)
    ensures forall t :: t in r <==> t in ts && t.kind == Purchase
  {
    if ts == [] then []
    else Purchases(ts[..|ts| - 1]) + (if ts[|ts| - 1].kind == Purchase then [ts[|ts| - 1]] else [])
  }

  function Consumptions(ts: seq<Transaction>): (r: seq<Transaction>)
    ensures forall t :: t in r <==> t in ts && t.kind == Consumption
  {
    if ts == [] then []
    else Consumptions(ts[..|ts| - 1]) + (if ts[|ts| - 1].kind == Consumption then [ts[|ts| - 1]] else [])
  }

  function SumAmounts(ts: seq<Transaction>): int {
    if ts == [] then 0 else SumAmounts(ts[..|ts| - 1]) + ts[|ts| - 1].creditAmount
  }

  function SumCredits(ts: seq<Transaction>): int {
    if ts == [] then 0 else SumCredits(ts[..|ts| - 1]) + ts[|ts| - 1].credits
  }

  lemma {:induction false} SumAmountsAppend(a: seq<Transaction>, b: seq<Transaction>)
    ensures SumAmounts(a + b) == SumAmounts(a) + SumAmounts(b)
    decreases |b|
  {
    if b == [] {
      assert a + b == a;
    } else {
      assert (a + b)[..|a + b| - 1] == a + b[..|b| - 1];
      SumAmountsAppend(a, b[..|b| - 1]);
    }
  }

  /** The balance is what was bought minus what was consumed. */
  lemma {:induction false} BalanceIsPurchasesMinusConsumptions(ts: seq<Transaction>)
    ensures TotalCreditAmount(ts) == SumAmounts(Purchases(ts)) - SumAmounts(Consumptions(ts))
  {
    if ts != [] {
      var init, t := ts[..|ts| - 1], ts[|ts| - 1];
      BalanceIsPurchasesMinusConsumptions(init);
      SumAmountsAppend(Purchases(init), if t.kind == Purchase then [t] else []);
      SumAmountsAppend(Consumptions(init), if t.kind == Consumption then [t] else []);
      assert SumAmounts([t]) == t.creditAmount by {
        assert [t][..0] == [];
      }
    }
  }

  /** The credit total is the plain sum of the credits column, whatever the
      row's kind: consumptions carry their own negative sign. */
  lemma {:induction false} TotalCreditsIsPlainSum(ts: seq<Transaction>)
    ensures TotalCredits(ts) == SumCredits(ts)
  {
    if ts != [] {
      TotalCreditsIsPlainSum(ts[..|ts| - 1]);
    }
  }

  // ---------------------------------------------------------------------
  // the cells

  /** The amount column: '+' for a purchase, '-' for a consumption, then the
      absolute amount (its currency formatting is not modelled). */
  function AmountCell(t: Transaction): (cell: (char, nat))
    ensures cell.0 == '+' <==> t.kind == Purchase
    ensures cell.0 == '-' <==> t.kind == Consumption
    ensures cell.1 == if t.creditAmount < 0 then -t.creditAmount else t.creditAmount
  {
    (if t.kind == Purchase then '+' else '-', if t.creditAmount < 0 then -t.creditAmount else t.creditAmount)
  }

  /** The credits column: '+' before a purchase's credits, a consumption's
      credits as stored. */
  function CreditsCell(t: Transaction): (cell: string)
    ensures t.kind == Purchase ==> cell == "+" + Text.IntToString(t.credits)
    ensures t.kind == Consumption ==> cell == Text.IntToString(t.credits)
  {
    (if t.kind == Purchase then "+" else "") + Text.IntToString(t.credits)
  }

  /** A consumption of credits is printed with a single leading '-'. */
  lemma ConsumptionCellIsNegative(t: Transaction)
    requires t.kind == Consumption && t.credits < 0
    ensures CreditsCell(t) == "-" + Text.NatToString(-t.credits)
  {
  }

  /** `value || '-'`: the per-student columns, None standing for '-'. */
  function OrDash(v: Option<int>): (cell: Option<int>)
    ensures cell.None? <==> v.None? || v.value == 0
    ensures cell.Some? ==> cell == v
  {
    if v.None? || v.value == 0 then None else v
  }

  // ---------------------------------------------------------------------
  // the ledger shown

  function Ledger(): seq<Transaction> {
    [Transaction("1", "2024-01-15", None, 750000, 1000, None, None, None, Purchase),
     Transaction("2", "2024-01-20", Some(FormationRef("Curso de Liderazgo Empresarial", "1")),
                 45000, -60, Some(4500), Some(6), Some(10), Consumption),
     Transaction("3", "2024-02-01", Some(FormationRef("Formación en Marketing Digital", "2")),
                 56250, -75, Some(3750), Some(5), Some(15), Consumption),
     Transaction("4", "2024-02-10", None, 375000, 500, None, None, None, Purchase),
     Transaction("5", "2024-02-15", Some(FormationRef("Desarrollo de Habilidades de Comunicación", "3")),
                 30000, -40, Some(3000), Some(4), Some(10), Consumption)]
  }

  /** The wallet shows 1325 credits and 9937.50 euros. */
  lemma LedgerTotals()
    ensures TotalCredits(Ledger()) == 1325
    ensures TotalCreditAmount(Ledger()) == 993750
  {
    var l := Ledger();
    TotalsSnoc([], l[0]);
    assert [] + [l[0]] == [l[0]];
    TotalsSnoc([l[0]], l[1]);
    assert [l[0]] + [l[1]] == [l[0], l[1]];
    TotalsSnoc([l[0], l[1]], l[2]);
    assert [l[0], l[1]] + [l[2]] == [l[0], l[1], l[2]];
    TotalsSnoc([l[0], l[1], l[2]], l[3]);
    assert [l[0], l[1], l[2]] + [l[3]] == [l[0], l[1], l[2], l[3]];
    TotalsSnoc([l[0], l[1], l[2], l[3]], l[4]);
    assert l == [l[0], l[1], l[2], l[3]] + [l[4]];
  }

  lemma TotalsSnoc(ts: seq<Transaction>, t: Transaction)
    ensures TotalCredits(ts + [t]) == TotalCredits(ts) + t.credits
    ensures TotalCreditAmount(ts + [t]) == TotalCreditAmount(ts) + SignedAmount(t)
  {
    assert (ts + [t])[..|ts|] == ts;
  }

  /** Every consumption in the ledger charges its per-student figures for
      each student: credits are minus credits-per-student times students and
      the amount is cost-per-student times students. */
  lemma LedgerConsumptionsConsistent()
    ensures forall k :: 0 <= k < |Ledger()| && Ledger()[k].kind == Consumption ==>
      var t := Ledger()[k];
      && t.creditsPerStudent.Some? && t.costPerStudent.Some? && t.students.Some?
      && t.credits == -(t.creditsPerStudent.value * t.students.value)
      && t.creditAmount == t.costPerStudent.value * t.students.value
  {
  }
}
