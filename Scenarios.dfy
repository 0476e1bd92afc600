/** Worked scenarios for both services, stated on concrete inputs. */
module Scenarios {
  import opened Ledger
  import opened ImportTransactions
  import CreateTransaction

  const Salary: CsvTransaction := CsvTransaction("Salary", "income", "5000", "Job")
  const Rent: CsvTransaction := CsvTransaction("Rent", "outcome", "1200", "Housing")

  /** A cell with no white space at either end is left as it is. */
  lemma TrimPlain(s: string)
    requires s != [] && !IsSpace(s[0]) && !IsSpace(s[|s| - 1])
    ensures Trim(s) == s
  {
  }

  const SalaryRow: Row := ["Salary", " income", "5000 ", "Job"]
  const RentRow: Row := ["Rent", "outcome", "1200", "Housing"]
  const BlankTitleRow: Row := ["", "outcome", "50", "Misc"]

  /** A leading space is trimmed away. */
  lemma TrimLeadingSpace()
    ensures Trim(" income") == "income"
  {
    TrimPadded(" ", "income", "");
    TrimPlain("income");
    assert " " + "income" + "" == " income";
  }

  /** A trailing space is trimmed away. */
  lemma TrimTrailingSpace()
    ensures Trim("5000 ") == "5000"
  {
    TrimPadded("", "5000", " ");
    TrimPlain("5000");
    assert "" + "5000" + " " == "5000 ";
  }

  /** Padding around the type and the value is trimmed away. */
  lemma AcceptSalary()
    ensures Accept(SalaryRow) == [Salary]
  {
    TrimPlain("Salary");
    TrimLeadingSpace();
    TrimTrailingSpace();
    TrimPlain("Job");
  }

  lemma AcceptRent()
    ensures Accept(RentRow) == [Rent]
  {
    TrimPlain("Rent");
    TrimPlain("outcome");
    TrimPlain("1200");
    TrimPlain("Housing");
  }

  /** A row with a blank title is dropped. */
  lemma AcceptBlankTitle()
    ensures Accept(BlankTitleRow) == []
  {
  }

  /** A file of a header and three data rows reads as the three rows'
      contributions, in order. */
  lemma RecordsOfThree(header: Row, r1: Row, r2: Row, r3: Row)
    ensures Records([header, r1, r2, r3]) == Accept(r1) + Accept(r2) + Accept(r3)
  {
    var lines := [header, r1, r2, r3];
    assert lines[1..] == [r1] + [r2] + [r3];
    SurvivingAppend([r1] + [r2], [r3]);
    SurvivingAppend([r1], [r2]);
    assert [r1][..0] == [] && [r2][..0] == [] && [r3][..0] == [];
  }

  /** Whatever the header holds, the file below reads as the Salary and Rent
      records: the header and the blank-title row give nothing. */
  lemma ExampleRecords(header: Row)
    ensures Records([header, SalaryRow, RentRow, BlankTitleRow]) == [Salary, Rent]
  {
    RecordsOfThree(header, SalaryRow, RentRow, BlankTitleRow);
    AcceptSalary();
    AcceptRent();
    AcceptBlankTitle();
  }

  /** Into an empty store, those records create "Job" and "Housing". */
  lemma ExampleCategories()
    ensures Saved([], CategoriesOf([Salary, Rent])) == [Category(0, "Job"), Category(1, "Housing")]
  {
    var cands := CategoriesOf([Salary, Rent]);
    assert cands == ["Job", "Housing"];
    assert Existing([], cands) == [];
    assert Titles([]) == [];
    assert Without(cands, []) == cands by {
      assert cands[1..] == ["Housing"];
      assert Without(["Housing"], []) == ["Housing"];
    }
    assert IndexOf(cands, "Housing") == 1;
    assert KeepFirsts(cands, 1) == ["Job"];
  }

  /** ... and leave a balance of 5000 - 1200. */
  lemma ExampleBalance(toValue: string -> int)
    requires toValue("5000") == 5000 && toValue("1200") == 1200
    ensures Total(ImportRecords(State([], []), [Salary, Rent], toValue).after.transactions) == 3800
  {
    var recs := [Salary, Rent];
    var imp := ImportRecords(State([], []), recs, toValue);
    ImportSpec(State([], []), recs, toValue);
    var ts := imp.after.transactions;
    assert ts == imp.created;
    assert ts[0].kind == Income && ts[0].value == 5000;
    assert ts[1].kind == Outcome && ts[1].value == 1200;
    TotalIsSignedSum(ts);
    assert SignedSum(ts[1..]) == -1200 by {
      assert ts[1..][1..] == [];
    }
  }

  /** With a balance of 3800, an outcome of exactly 3800 is created and one of
      3801 is refused without touching either store. */
  lemma ExampleBoundary(s: State)
    requires Total(s.transactions) == 3800
    ensures CreateTransaction.Create(s, CreateTransaction.Request("Car", 3800, Outcome, "Transport")).result.Created?
    ensures var r := CreateTransaction.Create(s, CreateTransaction.Request("Car", 3801, Outcome, "Transport"));
            r.result == CreateTransaction.Failed(CreateTransaction.NotEnoughBalance) && r.after == s
  {
  }
}
