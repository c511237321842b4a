/**
 * The FeatureEngineer transformer (scripts/custom_transformers.py): fills in
 * the four amount columns and derives Income, LoanInstallment and
 * IncomeImpact, guarding every division against a zero denominator.
 */
module Features {
  import opened Common
  import opened Frames

  const ApplicantIncome := "ApplicantIncome"
  const CoapplicantIncome := "CoapplicantIncome"
  const LoanAmount := "LoanAmount"
  const LoanAmountTerm := "Loan_Amount_Term"
  const Income := "Income"
  const LoanInstallment := "LoanInstallment"
  const IncomeImpact := "IncomeImpact"

  /** The columns that get a default of 0 when absent or NaN. */
  const AmountColumns: seq<string> := [ApplicantIncome, CoapplicantIncome, LoanAmount, LoanAmountTerm]

  /** The seven column names the transformer writes are pairwise different. */
  lemma ColumnNamesDiffer()
    ensures ApplicantIncome != CoapplicantIncome && ApplicantIncome != LoanAmount
    ensures ApplicantIncome != LoanAmountTerm && ApplicantIncome != Income
    ensures ApplicantIncome != LoanInstallment && ApplicantIncome != IncomeImpact
    ensures CoapplicantIncome != LoanAmount && CoapplicantIncome != LoanAmountTerm
    ensures CoapplicantIncome != Income && CoapplicantIncome != LoanInstallment
    ensures CoapplicantIncome != IncomeImpact && LoanAmount != LoanAmountTerm
    ensures LoanAmount != Income && LoanAmount != LoanInstallment && LoanAmount != IncomeImpact
    ensures LoanAmountTerm != Income && LoanAmountTerm != LoanInstallment
    ensures LoanAmountTerm != IncomeImpact && Income != LoanInstallment
    ensures Income != IncomeImpact && LoanInstallment != IncomeImpact
  {
    assert ApplicantIncome[0] != LoanInstallment[0];
  }

  /** The columns the transformer computes. */
  const DerivedColumns: seq<string> := [Income, LoanInstallment, IncomeImpact]

  /** The amount columns hold numbers or NaN, never text (text there makes pandas arithmetic raise). */
  predicate AmountsNumeric(t: Table) {
    forall i, c | 0 <= i < |t.rows| && c in AmountColumns && c in t.rows[i] :: !t.rows[i][c].Str?
  }

  // ---------------------------------------------------------------------
  // Element-wise Series arithmetic, with NaN (Missing) propagating.

  /** `a + b` on two cells. */
  function Plus(a: Value, b: Value): Value {
    if a.Num? && b.Num? then Num(a.x + b.x) else Missing
  }

  /** `a / b` on two cells; the callers guarantee the divisor is never the number 0. */
  function Divide(a: Value, b: Value): Value
    requires b != Num(0.0)
  {
    if a.Num? && b.Num? then Num(a.x / b.x) else Missing
  }

  /** A Series of `n` copies of `v` (`df[col] = 0`). */
  function Repeat(v: Value, n: nat): (s: Series)
    ensures |s| == n && forall i | 0 <= i < n :: s[i] == v
  {
    seq(n, _ => v)
  }

  function Add(a: Series, b: Series): (s: Series)
    requires |a| == |b|
    ensures |s| == |a| && forall i | 0 <= i < |s| :: s[i] == Plus(a[i], b[i])
  {
    seq(|a|, i requires 0 <= i < |a| => Plus(a[i], b[i]))
  }

  /** True when no cell of `s` is the number 0. */
  predicate NoZero(s: Series) {
    forall i | 0 <= i < |s| :: s[i] != Num(0.0)
  }

  function Quotient(a: Series, b: Series): (s: Series)
    requires |a| == |b| && NoZero(b)
    ensures |s| == |a| && forall i | 0 <= i < |s| :: s[i] == Divide(a[i], b[i])
  {
    seq(|a|, i requires 0 <= i < |a| => Divide(a[i], b[i]))
  }

  /** `.replace({0: np.nan})` on one cell. */
  function ZeroToNaN(v: Value): (r: Value)
    ensures r != Num(0.0)
  {
    if v == Num(0.0) then Missing else v
  }

  /** `.replace({0: np.nan})`. */
  function ZerosToNaN(s: Series): (r: Series)
    ensures |r| == |s| && NoZero(r)
    ensures forall i | 0 <= i < |r| :: r[i] == ZeroToNaN(s[i])
  {
    seq(|s|, i requires 0 <= i < |s| => ZeroToNaN(s[i]))
  }

  /** `.fillna(v)`. */
  function FillNaWith(s: Series, v: Value): (r: Series)
    ensures |r| == |s|
    ensures forall i | 0 <= i < |r| :: r[i] == if s[i].Missing? then v else s[i]
    ensures NoZero(s) && v != Num(0.0) ==> NoZero(r)
  {
    seq(|s|, i requires 0 <= i < |s| => if s[i].Missing? then v else s[i])
  }

  /** `.fillna(other)`: each NaN takes the cell of `other` in the same row. */
  function FillNaFrom(s: Series, other: Series): (r: Series)
    requires |s| == |other|
    ensures |r| == |s|
    ensures forall i | 0 <= i < |r| :: r[i] == if s[i].Missing? then other[i] else s[i]
  {
    seq(|s|, i requires 0 <= i < |s| => if s[i].Missing? then other[i] else s[i])
  }

  // ---------------------------------------------------------------------
  // The transformation, column by column, as the source writes it.

  /** A column that is absent is added at the end, holding 0 in every row; a present one is left alone. */
  function AddDefault(t: Table, name: string): (r: Table)
    ensures WellFormed(t) ==> WellFormed(r)
    ensures name in t.columns ==> r == t
    ensures name !in t.columns ==> r.columns == t.columns + [name] && |r.rows| == |t.rows|
  {
    if name in t.columns then t else WithColumn(t, name, Repeat(Num(0.0), |t.rows|))
  }

  /** A column added by default holds 0 in every row, and nothing else in the row changes. */
  lemma AddDefaultRows(t: Table, name: string)
    requires name !in t.columns
    ensures forall i | 0 <= i < |t.rows| :: AddDefault(t, name).rows[i] == t.rows[i][name := Num(0.0)]
  {
  }

  /** The defaulting loop over `names`, first to last. */
  function AddDefaults(t: Table, names: seq<string>): (r: Table)
    ensures |r.rows| == |t.rows|
    ensures WellFormed(t) ==> WellFormed(r)
    ensures forall c | c in names :: c in r.columns
    ensures t.columns <= r.columns
    ensures WellFormed(t) ==> Names(r.columns) == Names(t.columns) + Names(names)
  {
    if names == [] then t
    else
      var front := AddDefaults(t, names[..|names| - 1]);
      assert forall c | c in names :: c in names[..|names| - 1] || c == names[|names| - 1];
      assert Names(names) == Names(names[..|names| - 1]) + {names[|names| - 1]};
      AddDefault(front, names[|names| - 1])
  }

  /** One more turn of the defaulting loop. */
  lemma AddDefaultsStep(t: Table, names: seq<string>, k: nat)
    requires k < |names|
    ensures AddDefaults(t, names[..k + 1]) == AddDefault(AddDefaults(t, names[..k]), names[k])
  {
    assert names[..k + 1][..k] == names[..k];
  }

  /** The frame after the defaults and the `fillna(0)` of the amount columns. */
  function Defaulted(t: Table): (r: Table)
    requires WellFormed(t)
    ensures WellFormed(r) && |r.rows| == |t.rows|
    ensures forall c | c in AmountColumns :: HasCells(r, c)
    ensures t.columns <= r.columns && Names(r.columns) == Names(t.columns) + Names(AmountColumns)
  {
    var r := FillMissing(AddDefaults(t, AmountColumns), AmountColumns, Num(0.0));
    forall c | c in AmountColumns ensures HasCells(r, c) {
      ColumnHasCells(r, c);
    }
    r
  }

  /** What assigning column `name` keeps: well-formedness, every existing column and its position. */
  ghost predicate StageResult(t: Table, name: string, r: Table) {
    && (WellFormed(t) ==> WellFormed(r))
    && HasCells(r, name)
    && (forall c | HasCells(t, c) :: HasCells(r, c))
    && t.columns <= r.columns
    && (name in t.columns ==> r.columns == t.columns)
    && (WellFormed(t) ==> Names(r.columns) == Names(t.columns) + {name})
  }

  /** The `Income` column: the cell-wise sum of the two income columns. */
  function WithIncome(t: Table): (r: Table)
    requires HasCells(t, ApplicantIncome) && HasCells(t, CoapplicantIncome)
    ensures |r.rows| == |t.rows|
    ensures forall i | 0 <= i < |r.rows| ::
      r.rows[i] == t.rows[i][Income := Plus(t.rows[i][ApplicantIncome], t.rows[i][CoapplicantIncome])]
    ensures StageResult(t, Income, r)
  {
    WithColumn(t, Income, Add(Column(t, ApplicantIncome), Column(t, CoapplicantIncome)))
  }

  /** One cell of the loan term with 0 and NaN replaced by 1. */
  function TermCell(v: Value): (r: Value)
    ensures r != Num(0.0)
    ensures v.Num? && v.x != 0.0 ==> r == v
    ensures v == Num(0.0) || v.Missing? ==> r == Num(1.0)
  {
    var z := ZeroToNaN(v);
    if z.Missing? then Num(1.0) else z
  }

  /** One cell of the IncomeImpact divisor: the applicant income, else the total income, never 0. */
  function DenomCell(applicant: Value, income: Value): (r: Value)
    ensures r != Num(0.0)
    ensures applicant.Num? && applicant.x != 0.0 ==> r == applicant
    ensures (applicant == Num(0.0) || applicant.Missing?) && income.Num? && income.x != 0.0 ==> r == income
    ensures (applicant == Num(0.0) || applicant.Missing?) && (income == Num(0.0) || income.Missing?) ==> r == Missing
  {
    var z := ZeroToNaN(applicant);
    ZeroToNaN(if z.Missing? then income else z)
  }

  /** The loan term with 0 and NaN replaced by 1. */
  function LoanTerm(t: Table): (s: Series)
    requires HasCells(t, LoanAmountTerm)
    ensures |s| == |t.rows| && NoZero(s)
    ensures forall i | 0 <= i < |s| :: s[i] == TermCell(t.rows[i][LoanAmountTerm])
  {
    FillNaWith(ZerosToNaN(Column(t, LoanAmountTerm)), Num(1.0))
  }

  /** The `LoanInstallment` column: the loan amount divided cell-wise by the guarded term. */
  function WithInstallment(t: Table): (r: Table)
    requires HasCells(t, LoanAmount) && HasCells(t, LoanAmountTerm)
    ensures |r.rows| == |t.rows|
    ensures forall i | 0 <= i < |r.rows| ::
      r.rows[i] == t.rows[i][LoanInstallment := Divide(t.rows[i][LoanAmount], LoanTerm(t)[i])]
    ensures StageResult(t, LoanInstallment, r)
  {
    WithColumn(t, LoanInstallment, Quotient(Column(t, LoanAmount), LoanTerm(t)))
  }

  /** The IncomeImpact divisor: ApplicantIncome, else Income, with 0 turned into NaN at each stage. */
  function Denominator(t: Table): (s: Series)
    requires HasCells(t, ApplicantIncome) && HasCells(t, Income)
    ensures |s| == |t.rows| && NoZero(s)
    ensures forall i | 0 <= i < |s| :: s[i] == DenomCell(t.rows[i][ApplicantIncome], t.rows[i][Income])
  {
    ZerosToNaN(FillNaFrom(ZerosToNaN(Column(t, ApplicantIncome)), Column(t, Income)))
  }

  /** The `IncomeImpact` column: the installment divided cell-wise by the guarded income divisor. */
  function WithImpact(t: Table): (r: Table)
    requires HasCells(t, ApplicantIncome) && HasCells(t, Income) && HasCells(t, LoanInstallment)
    ensures |r.rows| == |t.rows|
    ensures forall i | 0 <= i < |r.rows| ::
      r.rows[i] == t.rows[i][IncomeImpact := Divide(t.rows[i][LoanInstallment], Denominator(t)[i])]
    ensures StageResult(t, IncomeImpact, r)
  {
    WithColumn(t, IncomeImpact, Quotient(Column(t, LoanInstallment), Denominator(t)))
  }

  /** `FeatureEngineer.transform` on the value of a frame. */
  function Derive(t: Table): (r: Table)
    requires WellFormed(t) && AmountsNumeric(t)
    ensures WellFormed(r) && |r.rows| == |t.rows|
  {
    var t1 := Defaulted(t);
    var t2 := WithIncome(t1);
    var t3 := WithInstallment(t2);
    WithImpact(t3)
  }

  // ---------------------------------------------------------------------
  // The same transformation, one record at a time.

  /** The number an amount column contributes: an absent or NaN cell counts as 0. */
  function Amount(row: Row, name: string): real {
    if name in row && row[name].Num? then row[name].x else 0.0
  }

  /** The term the installment divides by: the loan term, or 1 when the term is 0. */
  function EffectiveTerm(row: Row): (term: real)
    ensures term != 0.0
    ensures Amount(row, LoanAmountTerm) != 0.0 ==> term == Amount(row, LoanAmountTerm)
  {
    if Amount(row, LoanAmountTerm) != 0.0 then Amount(row, LoanAmountTerm) else 1.0
  }

  /** The record after defaulting: each amount column holds its number, 0 when it was absent or NaN. */
  function DefaultRecord(row: Row): (r: Row)
    ensures r.Keys == row.Keys + Names(AmountColumns)
    ensures forall c | c in r :: r[c] == if c in AmountColumns then Num(Amount(row, c)) else row[c]
  {
    ColumnNamesDiffer();
    row[ApplicantIncome := Num(Amount(row, ApplicantIncome))]
       [CoapplicantIncome := Num(Amount(row, CoapplicantIncome))]
       [LoanAmount := Num(Amount(row, LoanAmount))]
       [LoanAmountTerm := Num(Amount(row, LoanAmountTerm))]
  }

  /**
   * The share of income one installment takes: over the applicant income,
   * else over the total income, else NaN.
   */
  function ImpactShare(installment: real, ai: real, co: real): Value {
    if ai != 0.0 then Num(installment / ai)
    else if ai + co != 0.0 then Num(installment / (ai + co))
    else Missing
  }

  /**
   * The derived record of one applicant: the four amounts with their
   * defaults, their total income, the installment per term and the share of
   * income the installment takes.
   */
  function DeriveRecord(row: Row): (r: Row)
    ensures r.Keys == row.Keys + Names(AmountColumns) + Names(DerivedColumns)
    ensures forall c | c in row && c !in AmountColumns && c !in DerivedColumns :: r[c] == row[c]
    ensures r[Income] == Num(Amount(row, ApplicantIncome) + Amount(row, CoapplicantIncome))
    ensures r[LoanInstallment] == Num(Amount(row, LoanAmount) / EffectiveTerm(row))
    ensures r[IncomeImpact] == ImpactShare(r[LoanInstallment].x, Amount(row, ApplicantIncome), Amount(row, CoapplicantIncome))
  {
    ColumnNamesDiffer();
    DerivedNames();
    var ai, co, la := Amount(row, ApplicantIncome), Amount(row, CoapplicantIncome), Amount(row, LoanAmount);
    var installment := la / EffectiveTerm(row);
    DefaultRecord(row)[Income := Num(ai + co)][LoanInstallment := Num(installment)][IncomeImpact := ImpactShare(installment, ai, co)]
  }

  /**
   * IncomeImpact is NaN exactly when both incomes are 0; otherwise it is the
   * installment over the applicant income, or over the coapplicant income
   * when the applicant has none.
   */
  lemma DeriveRecordImpact(row: Row)
    ensures var r, ai, co := DeriveRecord(row), Amount(row, ApplicantIncome), Amount(row, CoapplicantIncome);
      && (r[IncomeImpact].Missing? <==> ai == 0.0 && co == 0.0)
      && (ai != 0.0 ==> r[IncomeImpact] == Num(r[LoanInstallment].x / ai))
      && (ai == 0.0 && co != 0.0 ==> r[IncomeImpact] == Num(r[LoanInstallment].x / co))
  {
    var r := DeriveRecord(row);
    ImpactShareCases(r[LoanInstallment].x, Amount(row, ApplicantIncome), Amount(row, CoapplicantIncome));
  }

  lemma ImpactShareCases(installment: real, ai: real, co: real)
    ensures ImpactShare(installment, ai, co).Missing? <==> ai == 0.0 && co == 0.0
    ensures ai != 0.0 ==> ImpactShare(installment, ai, co) == Num(installment / ai)
    ensures ai == 0.0 && co != 0.0 ==> ImpactShare(installment, ai, co) == Num(installment / co)
  {
  }

  /**
   * After derivation each amount column holds a number: the one it held, or
   * 0 when it was absent or NaN.
   */
  lemma DeriveRecordAmounts(row: Row)
    ensures forall c | c in AmountColumns :: DeriveRecord(row)[c] == Num(Amount(row, c))
    ensures forall c | c in AmountColumns && c in row && row[c].Num? :: DeriveRecord(row)[c] == row[c]
    ensures forall c | c in AmountColumns && (c !in row || row[c].Missing?) :: DeriveRecord(row)[c] == Num(0.0)
  {
    ColumnNamesDiffer();
  }

  /**
   * The installment times the effective term is the loan amount, and with a
   * term of 0 the installment is the whole loan amount: no division by zero.
   */
  lemma InstallmentCoversLoan(row: Row)
    ensures DeriveRecord(row)[LoanInstallment].Num?
    ensures DeriveRecord(row)[LoanInstallment].x * EffectiveTerm(row) == Amount(row, LoanAmount)
    ensures Amount(row, LoanAmountTerm) == 0.0 ==> DeriveRecord(row)[LoanInstallment] == Num(Amount(row, LoanAmount))
  {
    var term := EffectiveTerm(row);
    DivideThenMultiply(Amount(row, LoanAmount), term);
  }

  lemma DivideThenMultiply(a: real, b: real)
    requires b != 0.0
    ensures (a / b) * b == a
  {
  }

  // ---------------------------------------------------------------------
  // The column-wise transformation agrees with the record-wise one.

  lemma {:induction false} AddDefaultsRows(t: Table, names: seq<string>, i: nat)
    requires WellFormed(t) && i < |t.rows|
    ensures var a, row := AddDefaults(t, names).rows[i], t.rows[i];
      && a.Keys == row.Keys + Names(names)
      && (forall c | c in row :: a[c] == row[c])
      && (forall c | c in a && c !in row :: a[c] == Num(0.0))
  {
    if names != [] {
      var front := names[..|names| - 1];
      var last := names[|names| - 1];
      AddDefaultsRows(t, front, i);
      assert Names(names) == Names(front) + {last};
      var f := AddDefaults(t, front);
      if last !in f.columns {
        assert last !in Names(f.columns);
        assert last !in f.rows[i];
      } else {
        assert last in Names(f.columns);
      }
    }
  }

  /** A record with the amount columns added as 0, then its NaN amounts filled with 0, is the defaulted record. */
  lemma FilledDefaults(row: Row, a: Row)
    requires forall c | c in AmountColumns && c in row :: !row[c].Str?
    requires a.Keys == row.Keys + Names(AmountColumns)
    requires forall c | c in row :: a[c] == row[c]
    requires forall c | c in a && c !in row :: a[c] == Num(0.0)
    ensures FillRow(a, AmountColumns, Num(0.0)) == DefaultRecord(row)
  {
    var d, e := FillRow(a, AmountColumns, Num(0.0)), DefaultRecord(row);
    forall c | c in d ensures d[c] == e[c] {
      if c in AmountColumns {
        if c in row {
          assert !row[c].Str?;
        }
        assert e[c] == Num(Amount(row, c));
      }
    }
  }

  lemma DefaultedRow(t: Table, i: nat)
    requires WellFormed(t) && AmountsNumeric(t) && i < |t.rows|
    ensures Defaulted(t).rows[i] == DefaultRecord(t.rows[i])
  {
    AddDefaultsRows(t, AmountColumns, i);
    FilledDefaults(t.rows[i], AddDefaults(t, AmountColumns).rows[i]);
  }


  /** The record has a cell in each of the four amount columns. */
  predicate HasAmountKeys(d: Row) {
    ApplicantIncome in d && CoapplicantIncome in d && LoanAmount in d && LoanAmountTerm in d
  }

  /** The three column assignments of `transform`, applied to one defaulted record. */
  function StagesOnRecord(d: Row): Row
    requires HasAmountKeys(d)
  {
    var income := Plus(d[ApplicantIncome], d[CoapplicantIncome]);
    var installment := Divide(d[LoanAmount], TermCell(d[LoanAmountTerm]));
    d[Income := income]
     [LoanInstallment := installment]
     [IncomeImpact := Divide(installment, DenomCell(d[ApplicantIncome], income))]
  }

  lemma StagesRowOf(u: Table, i: nat)
    requires forall c | c in AmountColumns :: HasCells(u, c)
    requires i < |u.rows|
    ensures WithImpact(WithInstallment(WithIncome(u))).rows[i] == StagesOnRecord(u.rows[i])
  {
    ColumnNamesDiffer();
    var d := u.rows[i];
    assert HasCells(u, ApplicantIncome) && HasCells(u, CoapplicantIncome);
    assert HasCells(u, LoanAmount) && HasCells(u, LoanAmountTerm);
    var income := Plus(d[ApplicantIncome], d[CoapplicantIncome]);
    var installment := Divide(d[LoanAmount], TermCell(d[LoanAmountTerm]));
    var u2 := WithIncome(u);
    assert u2.rows[i] == d[Income := income];
    var u3 := WithInstallment(u2);
    assert u3.rows[i] == d[Income := income][LoanInstallment := installment];
  }

  /** The three assignments on a record whose four amounts are the numbers `ai`, `co`, `la` and `term`. */
  lemma TermOfNumber(term: real)
    ensures TermCell(Num(term)) == Num(if term != 0.0 then term else 1.0)
  {
  }

  lemma ImpactOfCells(installment: real, ai: real, co: real)
    ensures Divide(Num(installment), DenomCell(Num(ai), Num(ai + co))) == ImpactShare(installment, ai, co)
  {
  }

  lemma StagesOnNumbers(d: Row, ai: real, co: real, installment: real)
    requires HasAmountKeys(d)
    requires d[ApplicantIncome] == Num(ai) && d[CoapplicantIncome] == Num(co)
    requires Divide(d[LoanAmount], TermCell(d[LoanAmountTerm])) == Num(installment)
    ensures StagesOnRecord(d) ==
      d[Income := Num(ai + co)][LoanInstallment := Num(installment)][IncomeImpact := ImpactShare(installment, ai, co)]
  {
    assert Plus(d[ApplicantIncome], d[CoapplicantIncome]) == Num(ai + co);
    ImpactOfCells(installment, ai, co);
    StagesOnRecordOf(d, Num(ai + co), Num(installment), ImpactShare(installment, ai, co));
  }

  /** `StagesOnRecord` in terms of the three values it stores. */
  lemma StagesOnRecordOf(d: Row, income: Value, installment: Value, impact: Value)
    requires HasAmountKeys(d)
    requires Plus(d[ApplicantIncome], d[CoapplicantIncome]) == income
    requires Divide(d[LoanAmount], TermCell(d[LoanAmountTerm])) == installment
    requires Divide(installment, DenomCell(d[ApplicantIncome], income)) == impact
    ensures StagesOnRecord(d) == d[Income := income][LoanInstallment := installment][IncomeImpact := impact]
  {
  }

  lemma StagesOnDefaulted(row: Row)
    ensures StagesOnRecord(DefaultRecord(row)) == DeriveRecord(row)
  {
    ColumnNamesDiffer();
    var d := DefaultRecord(row);
    var ai, co := Amount(row, ApplicantIncome), Amount(row, CoapplicantIncome);
    var installment := Amount(row, LoanAmount) / EffectiveTerm(row);
    assert HasAmountKeys(d);
    assert d[LoanAmount] == Num(Amount(row, LoanAmount)) && d[LoanAmountTerm] == Num(Amount(row, LoanAmountTerm));
    TermOfNumber(Amount(row, LoanAmountTerm));
    StagesOnNumbers(d, ai, co, installment);
    DeriveRecordOf(row, ai, co, installment);
  }

  lemma DeriveRow(t: Table, i: nat)
    requires WellFormed(t) && AmountsNumeric(t) && i < |t.rows|
    ensures Derive(t).rows[i] == DeriveRecord(t.rows[i])
  {
    DefaultedRow(t, i);
    StagesRowOf(Defaulted(t), i);
    StagesOnDefaulted(t.rows[i]);
  }

  /** Deriving a frame derives each of its records on its own: row `i` of the result depends on row `i` alone. */
  lemma DeriveIsRowwise(t: Table)
    requires WellFormed(t) && AmountsNumeric(t)
    ensures |Derive(t).rows| == |t.rows|
    ensures forall i | 0 <= i < |t.rows| :: Derive(t).rows[i] == DeriveRecord(t.rows[i])
  {
    forall i | 0 <= i < |t.rows| ensures Derive(t).rows[i] == DeriveRecord(t.rows[i]) {
      DeriveRow(t, i);
    }
  }

  /**
   * The columns of the input stay where they were, and the result has exactly
   * the input's columns plus the four amount and the three derived columns.
   */
  lemma DeriveColumns(t: Table)
    requires WellFormed(t) && AmountsNumeric(t)
    ensures t.columns <= Derive(t).columns
    ensures Names(Derive(t).columns) == Names(t.columns) + Names(AmountColumns) + Names(DerivedColumns)
  {
    var u1 := Defaulted(t);
    var u2 := WithIncome(u1);
    var u3 := WithInstallment(u2);
    var u4 := WithImpact(u3);
    StageColumns(u1, Income, u2);
    StageColumns(u2, LoanInstallment, u3);
    StageColumns(u3, IncomeImpact, u4);
    DerivedNames();
    UnionOfStages(Names(t.columns), Names(AmountColumns), Names(u1.columns), Names(u2.columns),
                  Names(u3.columns), Names(u4.columns));
  }

  lemma DerivedNames()
    ensures Names(DerivedColumns) == {Income, LoanInstallment, IncomeImpact}
  {
  }

  /** Set algebra for the column names along the stages of `transform`. */
  lemma UnionOfStages(n0: set<string>, amounts: set<string>, n1: set<string>, n2: set<string>, n3: set<string>, n4: set<string>)
    requires n1 == n0 + amounts && n2 == n1 + {Income} && n3 == n2 + {LoanInstallment} && n4 == n3 + {IncomeImpact}
    ensures n4 == n0 + amounts + {Income, LoanInstallment, IncomeImpact}
  {
  }

  /** One assignment keeps the column list as a prefix and adds its name. */
  lemma StageColumns(u: Table, name: string, r: Table)
    requires WellFormed(u) && StageResult(u, name, r)
    ensures WellFormed(r) && u.columns <= r.columns && Names(r.columns) == Names(u.columns) + {name}
  {
  }

  lemma {:induction false} AddDefaultsPresent(t: Table, names: seq<string>)
    requires forall c | c in names :: c in t.columns
    ensures AddDefaults(t, names) == t
  {
    if names != [] {
      AddDefaultsPresent(t, names[..|names| - 1]);
    }
  }

  /** A frame that already has all seven columns keeps its column list. */
  lemma DeriveKeepsPresentColumns(t: Table)
    requires WellFormed(t) && AmountsNumeric(t)
    requires forall c | c in AmountColumns + DerivedColumns :: c in t.columns
    ensures Derive(t).columns == t.columns
  {
    AddDefaultsPresent(t, AmountColumns);
  }

  /** A derived record holds the same amounts as the record it came from. */
  lemma DerivedAmounts(row: Row)
    ensures forall c | c in AmountColumns :: c in DeriveRecord(row) && Amount(DeriveRecord(row), c) == Amount(row, c)
    ensures EffectiveTerm(DeriveRecord(row)) == EffectiveTerm(row)
  {
    DeriveRecordAmounts(row);
    assert Names(AmountColumns) <= DeriveRecord(row).Keys;
  }

  /** Storing in each derived column the value it already holds leaves a record as it was. */
  lemma StoreDerivedSame(m: Row, income: Value, installment: Value, impact: Value)
    requires Income in m && LoanInstallment in m && IncomeImpact in m
    requires m[Income] == income && m[LoanInstallment] == installment && m[IncomeImpact] == impact
    ensures m[Income := income][LoanInstallment := installment][IncomeImpact := impact] == m
  {
    ColumnNamesDiffer();
    var m1 := m[Income := income];
    assert m1 == m;
    var m2 := m1[LoanInstallment := installment];
    assert m2 == m;
  }

  /** The value of `DeriveRecord` in terms of the three numbers it computes. */
  lemma DeriveRecordOf(x: Row, ai: real, co: real, installment: real)
    requires Amount(x, ApplicantIncome) == ai && Amount(x, CoapplicantIncome) == co
    requires Amount(x, LoanAmount) / EffectiveTerm(x) == installment
    ensures DeriveRecord(x) ==
      DefaultRecord(x)[Income := Num(ai + co)][LoanInstallment := Num(installment)][IncomeImpact := ImpactShare(installment, ai, co)]
  {
  }

  /** Defaulting a record whose four amounts are all numbers changes nothing. */
  lemma DefaultNumeric(r: Row)
    requires forall c | c in AmountColumns :: c in r && r[c].Num?
    ensures DefaultRecord(r) == r
  {
    var e := DefaultRecord(r);
    forall c | c in e ensures e[c] == r[c] {
    }
  }

  /** Defaulting a derived record changes nothing: its amounts are numbers already. */
  lemma DefaultDerived(row: Row)
    ensures DefaultRecord(DeriveRecord(row)) == DeriveRecord(row)
  {
    DerivedAmounts(row);
    DeriveRecordAmounts(row);
    DefaultNumeric(DeriveRecord(row));
  }

  /** Deriving a derived record changes nothing. */
  lemma DeriveRecordIdempotent(row: Row)
    ensures DeriveRecord(DeriveRecord(row)) == DeriveRecord(row)
  {
    var r := DeriveRecord(row);
    DerivedAmounts(row);
    DefaultDerived(row);
    var ai, co := Amount(row, ApplicantIncome), Amount(row, CoapplicantIncome);
    var installment := Amount(row, LoanAmount) / EffectiveTerm(row);
    DeriveRecordOf(r, ai, co, installment);
    DeriveRecordOf(row, ai, co, installment);
    StoreDerivedSame(r, Num(ai + co), Num(installment), ImpactShare(installment, ai, co));
  }

  /** Every amount cell of a derived frame is a number. */
  lemma DeriveAmountsNumeric(t: Table)
    requires WellFormed(t) && AmountsNumeric(t)
    ensures AmountsNumeric(Derive(t))
  {
    var d := Derive(t);
    forall i, c | 0 <= i < |d.rows| && c in AmountColumns && c in d.rows[i] ensures !d.rows[i][c].Str? {
      DeriveRow(t, i);
      DeriveRecordAmounts(t.rows[i]);
    }
  }

  lemma DeriveTwiceColumns(t: Table)
    requires WellFormed(t) && AmountsNumeric(t)
    ensures AmountsNumeric(Derive(t))
    ensures Derive(Derive(t)).columns == Derive(t).columns
  {
    var d := Derive(t);
    DeriveAmountsNumeric(t);
    DeriveColumns(t);
    assert forall c | c in AmountColumns + DerivedColumns :: c in Names(d.columns);
    DeriveKeepsPresentColumns(d);
  }

  lemma DeriveTwiceRows(t: Table)
    requires WellFormed(t) && AmountsNumeric(t)
    ensures AmountsNumeric(Derive(t))
    ensures Derive(Derive(t)).rows == Derive(t).rows
  {
    var d := Derive(t);
    DeriveAmountsNumeric(t);
    forall i | 0 <= i < |d.rows| ensures Derive(d).rows[i] == d.rows[i] {
      DeriveTwiceRow(t, d, i);
    }
  }

  /** Row `i` of a derived frame survives a second derivation. */
  lemma DeriveTwiceRow(t: Table, d: Table, i: nat)
    requires WellFormed(t) && AmountsNumeric(t) && d == Derive(t) && i < |t.rows|
    requires WellFormed(d) && AmountsNumeric(d)
    ensures Derive(d).rows[i] == d.rows[i]
  {
    DeriveRow(t, i);
    DeriveRow(d, i);
    DeriveRecordIdempotent(t.rows[i]);
  }

  /**
   * Deriving an already derived frame gives it back unchanged: every column
   * it would add is already there, and every value it would compute is the
   * one already stored.
   */
  lemma DeriveIdempotent(t: Table)
    requires WellFormed(t) && AmountsNumeric(t)
    ensures AmountsNumeric(Derive(t))
    ensures Derive(Derive(t)) == Derive(t)
  {
    DeriveTwiceColumns(t);
    DeriveTwiceRows(t);
  }

  /** The transformer of the source; it has no learned state. */
  class FeatureEngineer {
    const featureName: string

    /** `FeatureEngineer(feature_name='feature_A')`. */
    constructor (featureName: string)
      ensures this.featureName == featureName
    {
      this.featureName := featureName;
    }

    /** `fit` learns nothing and returns the transformer itself. */
    method Fit(x: Frame, y: Option<Series>) returns (r: FeatureEngineer)
      ensures r == this && r.featureName == featureName
    {
      r := this;
    }

    /**
     * `transform`: works on a copy of `x`, so the caller's frame is left as it
     * was, and the copy ends up holding `Derive` of the input.
     */
    method Transform(x: Frame) returns (r: Frame)
      requires x.Valid() && AmountsNumeric(x.View())
      ensures fresh(r) && r.Valid()
      ensures r.View() == Derive(x.View())
      ensures x.View() == old(x.View())
    {
      ghost var t := x.View();
      r := x.Copy();
      for k := 0 to |AmountColumns|
        invariant fresh(r)
        invariant r.View() == AddDefaults(t, AmountColumns[..k])
      {
        AddDefaultsStep(t, AmountColumns, k);
        if !r.Has(AmountColumns[k]) {
          r.Assign(AmountColumns[k], Repeat(Num(0.0), |r.rows|));
        }
      }
      assert AmountColumns[..|AmountColumns|] == AmountColumns;
      r.FillNa(AmountColumns, Num(0.0));
      assert r.View() == Defaulted(t);
      r.Assign(Income, Add(r.Get(ApplicantIncome), r.Get(CoapplicantIncome)));
      assert r.View() == WithIncome(Defaulted(t));
      var loanTerm := ZerosToNaN(r.Get(LoanAmountTerm));
      loanTerm := FillNaWith(loanTerm, Num(1.0));
      r.Assign(LoanInstallment, Quotient(r.Get(LoanAmount), loanTerm));
      assert r.View() == WithInstallment(WithIncome(Defaulted(t)));
      var denom := ZerosToNaN(r.Get(ApplicantIncome));
      denom := FillNaFrom(denom, r.Get(Income));
      denom := ZerosToNaN(denom);
      r.Assign(IncomeImpact, Quotient(r.Get(LoanInstallment), denom));
    }
  }
}
