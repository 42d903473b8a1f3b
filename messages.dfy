/** The per-row messages of a bulk import: which check rejected the row and the
    spreadsheet row it was on, and the exact text the importer shows for it. */
module Messages {
  import opened Validation

  /** Why a row was skipped, in the order the importer checks. */
  datatype Problem = InvalidCode | MissingUrl | BadYear | CodeExists

  /** A skip message; `row` is the spreadsheet row number (data index + 2). */
  datatype Message = Message(row: nat, problem: Problem)

  function DigitChar(d: nat): (c: char)
    requires d < 10
    ensures IsDigit(c)
  {
    (48 + d) as char
  }

  function DigitValue(c: char): (d: nat)
    requires IsDigit(c)
    ensures d < 10 && DigitChar(d) == c
  {
    c as int - 48
  }

  /** `str(n)` for a non-negative int: decimal digits, no leading zero. */
  function Decimal(n: nat): (s: string)
    ensures IsDigits(s)
    ensures |s| > 1 ==> s[0] != '0'
  {
    if n < 10 then [DigitChar(n)] else Decimal(n / 10) + [DigitChar(n % 10)]
  }

  /** The value of a string of decimal digits (the reading `int()` gives it). */
  function ParseDecimal(s: string): nat
    requires AllDigits(s)
  {
    if s == [] then 0 else 10 * ParseDecimal(s[..|s| - 1]) + DigitValue(s[|s| - 1])
  }

  /** Reading back the digits of `n` gives `n`. */
  lemma {:induction false} ParseDecimalOfDecimal(n: nat)
    ensures ParseDecimal(Decimal(n)) == n
  {
    var s := Decimal(n);
    if n >= 10 {
      assert s[..|s| - 1] == Decimal(n / 10);
      ParseDecimalOfDecimal(n / 10);
    } else {
      assert s[..0] == [];
    }
  }

  /** Distinct row numbers are written differently. */
  lemma DecimalInjective(m: nat, n: nat)
    requires Decimal(m) == Decimal(n)
    ensures m == n
  {
    ParseDecimalOfDecimal(m);
    ParseDecimalOfDecimal(n);
  }

  /** The text after "Row <n>: " for each problem. */
  function Reason(p: Problem): string {
    match p
    case InvalidCode => "Invalid code (must be 11 digits)"
    case MissingUrl => "Missing URL"
    case BadYear => "Year must be 4 digits"
    case CodeExists => "Code exists - skipped"
  }

  /** The line the importer appends to its message list. */
  function Text(m: Message): string {
    "Row " + Decimal(m.row) + ": " + Reason(m.problem)
  }

  /** No two messages read the same: the row number and the problem can be
      recovered from the text. */
  lemma TextInjective(m1: Message, m2: Message)
    requires Text(m1) == Text(m2)
    ensures m1 == m2
  {
    LineInjective(Decimal(m1.row), Reason(m1.problem), Decimal(m2.row), Reason(m2.problem));
    DecimalInjective(m1.row, m2.row);
    ReasonInjective(m1.problem, m2.problem);
  }

  /** A line "Row <digits>: <reason>" determines its digits and its reason. */
  lemma LineInjective(d1: string, r1: string, d2: string, r2: string)
    requires AllDigits(d1) && AllDigits(d2)
    requires "Row " + d1 + ": " + r1 == "Row " + d2 + ": " + r2
    ensures d1 == d2 && r1 == r2
  {
    var t := "Row " + d1 + ": " + r1;
    var u1, u2 := ": " + r1, ": " + r2;
    assert t[4..] == d1 + u1;
    assert t[4..] == d2 + u2;
    DigitsThenSeparator(d1, u1, d2, u2);
    assert r1 == u1[2..];
    assert r2 == u2[2..];
  }

  /** A run of digits followed by a non-digit splits a string in one way
      only. */
  lemma DigitsThenSeparator(d1: string, u1: string, d2: string, u2: string)
    requires AllDigits(d1) && AllDigits(d2)
    requires |u1| > 0 && !IsDigit(u1[0]) && |u2| > 0 && !IsDigit(u2[0])
    requires d1 + u1 == d2 + u2
    ensures d1 == d2 && u1 == u2
  {
    var t := d1 + u1;
    assert forall k :: 0 <= k < |d1| ==> t[k] == d1[k];
    assert forall k :: 0 <= k < |d2| ==> t[k] == d2[k];
    assert !IsDigit(t[|d1|]) && !IsDigit(t[|d2|]);
    assert |d1| == |d2|;
    assert d1 == t[..|d1|] == d2;
    assert u1 == t[|d1|..] == u2;
  }

  lemma ReasonInjective(p1: Problem, p2: Problem)
    requires Reason(p1) == Reason(p2)
    ensures p1 == p2
  {
    assert |Reason(p1)| == |Reason(p2)| && Reason(p1)[0] == Reason(p2)[0];
  }
}
