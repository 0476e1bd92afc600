/** Bulk import from a comma-separated file: the header line is skipped, every
    cell is trimmed, rows with a blank title, type or value are dropped, the
    missing categories are created once each, and all surviving rows become
    transactions in file order. No balance check is made on this path. */
module ImportTransactions {
  import opened Ledger

  /** One parsed line of the file: its cells, before trimming. */
  type Row = seq<string>

  /** A surviving row, with trimmed cells; the value is still text. */
  datatype CsvTransaction = CsvTransaction(title: string, kind: string, value: string, category: string)

  // ---------------------------------------------------------------------
  // Trimming, as `String.prototype.trim` does it.

  /** ECMAScript white space and line terminators. */
  predicate IsSpace(c: char)
  {
    || c == '\t' || c == '\n' || c == '\U{000B}' || c == '\U{000C}' || c == '\r'
    || c == ' ' || c == '\U{00A0}' || c == '\U{1680}' || ('\U{2000}' <= c <= '\U{200A}')
    || c == '\U{2028}' || c == '\U{2029}' || c == '\U{202F}' || c == '\U{205F}'
    || c == '\U{3000}' || c == '\U{FEFF}'
  }

  predicate AllSpace(s: string)
  {
    forall k :: 0 <= k < |s| ==> IsSpace(s[k])
  }

  /** Drops leading white space. */
  function TrimStart(s: string): string
  {
    if s != [] && IsSpace(s[0]) then TrimStart(s[1..]) else s
  }

  /** Drops trailing white space. */
  function TrimEnd(s: string): string
  {
    if s != [] && IsSpace(s[|s| - 1]) then TrimEnd(s[..|s| - 1]) else s
  }

  /** `cell.trim()`. */
  function Trim(s: string): string
  {
    TrimEnd(TrimStart(s))
  }

  /** TrimStart leaves a suffix of `s`, what it drops is all white space, and
      what it leaves does not start with white space. */
  lemma {:induction false} TrimStartSpec(s: string)
    ensures |TrimStart(s)| <= |s| && TrimStart(s) == s[|s| - |TrimStart(s)|..]
    ensures AllSpace(s[..|s| - |TrimStart(s)|])
    ensures TrimStart(s) != [] ==> !IsSpace(TrimStart(s)[0])
  {
    if s != [] && IsSpace(s[0]) {
      TrimStartSpec(s[1..]);
      var n := |s| - |TrimStart(s)|;
      assert s[..n] == [s[0]] + s[1..][..n - 1];
    }
  }

  /** TrimEnd leaves a prefix of `s`, what it drops is all white space, and
      what it leaves does not end with white space. */
  lemma {:induction false} TrimEndSpec(s: string)
    ensures |TrimEnd(s)| <= |s| && TrimEnd(s) == s[..|TrimEnd(s)|]
    ensures AllSpace(s[|TrimEnd(s)|..])
    ensures TrimEnd(s) != [] ==> !IsSpace(TrimEnd(s)[|TrimEnd(s)| - 1])
  {
    if s != [] && IsSpace(s[|s| - 1]) {
      var s' := s[..|s| - 1];
      TrimEndSpec(s');
      var n := |TrimEnd(s)|;
      assert s[n..] == s'[n..] + [s[|s| - 1]];
    }
  }

  /** A trimmed cell is empty exactly when the cell is all white space, and
      otherwise neither starts nor ends with white space. */
  lemma TrimSpec(s: string)
    ensures Trim(s) == [] <==> AllSpace(s)
    ensures Trim(s) != [] ==> !IsSpace(Trim(s)[0]) && !IsSpace(Trim(s)[|Trim(s)| - 1])
    ensures |Trim(s)| <= |s|
  {
    var t := TrimStart(s);
    TrimStartSpec(s);
    TrimEndSpec(t);
    assert s == s[..|s| - |t|] + t;
    if Trim(s) == [] {
      assert t == t[..0] + t[0..];
    }
  }

  lemma {:induction false} TrimStartAppend(x: string, q: string)
    ensures TrimStart(x + q) == if AllSpace(x) then TrimStart(q) else TrimStart(x) + q
  {
    if x != [] {
      assert (x + q)[0] == x[0];
      assert (x + q)[1..] == x[1..] + q;
      TrimStartAppend(x[1..], q);
    } else {
      assert x + q == q;
    }
  }

  lemma {:induction false} TrimEndPrepend(p: string, x: string)
    ensures TrimEnd(p + x) == if AllSpace(x) then TrimEnd(p) else p + TrimEnd(x)
    decreases |x|
  {
    if x != [] {
      var x' := x[..|x| - 1];
      assert (p + x)[|p + x| - 1] == x[|x| - 1];
      assert (p + x)[..|p + x| - 1] == p + x';
      TrimEndPrepend(p, x');
    } else {
      assert p + x == p;
    }
  }

  lemma {:induction false} TrimStartAllSpace(s: string)
    requires AllSpace(s)
    ensures TrimStart(s) == []
  {
    if s != [] {
      TrimStartAllSpace(s[1..]);
    }
  }

  /** White space around a cell's text never matters. */
  lemma TrimPadded(p: string, s: string, q: string)
    requires AllSpace(p) && AllSpace(q)
    ensures Trim(p + s + q) == Trim(s)
  {
    assert p + s + q == p + (s + q);
    TrimStartAppend(p, s + q);
    TrimStartAppend(s, q);
    TrimStartAllSpace(q);
    if AllSpace(s) {
      TrimStartAllSpace(s);
    } else {
      TrimEndPrepend(TrimStart(s), q);
    }
  }

  /** Trimming twice is trimming once. */
  lemma TrimIdempotent(s: string)
    ensures Trim(Trim(s)) == Trim(s)
  {
    var r := Trim(s);
    TrimSpec(s);
    if r != [] {
      assert TrimStart(r) == r;
      assert TrimEnd(r) == r;
    }
  }

  // ---------------------------------------------------------------------
  // Reading the rows (the parser's `data` callback and its accumulation).

  /** The trimmed cell `i` of a row; a cell the row lacks reads as empty. */
  function Cell(row: Row, i: nat): string
  {
    if i < |row| then Trim(row[i]) else ""
  }

  /** What one row contributes: nothing when its title, type or value is
      empty after trimming, else one record of its trimmed cells. */
  function Accept(row: Row): seq<CsvTransaction>
  {
    if Cell(row, 0) == "" || Cell(row, 1) == "" || Cell(row, 2) == "" then []
    else [CsvTransaction(Cell(row, 0), Cell(row, 1), Cell(row, 2), Cell(row, 3))]
  }

  /** `xs.flatMap(f)`: the results of `f` on each element, concatenated in order. */
  function FlatMap<A, B>(f: A -> seq<B>, xs: seq<A>): seq<B>
  {
    if xs == [] then [] else FlatMap(f, xs[..|xs| - 1]) + f(xs[|xs| - 1])
  }

  /** The records of a sequence of data rows, in order. */
  function Surviving(rows: seq<Row>): seq<CsvTransaction>
  {
    FlatMap(Accept, rows)
  }

  /** The records of a whole file: reading starts at its second line. */
  function Records(lines: seq<Row>): seq<CsvTransaction>
  {
    if lines == [] then [] else Surviving(lines[1..])
  }

  /** The category text of each record, duplicates kept. */
  function CategoriesOf(recs: seq<CsvTransaction>): seq<string>
  {
    seq(|recs|, i requires 0 <= i < |recs| => recs[i].category)
  }

  /** A cell is blank when the row lacks it or it is all white space. */
  predicate Blank(row: Row, i: nat)
  {
    i >= |row| || AllSpace(row[i])
  }

  /** A row is dropped exactly when its title, type or value is blank; the
      category plays no part, and a kept row keeps its cells trimmed. */
  lemma AcceptIff(row: Row)
    ensures Accept(row) == [] <==> Blank(row, 0) || Blank(row, 1) || Blank(row, 2)
    ensures Accept(row) != [] ==>
              Accept(row) == [CsvTransaction(Trim(row[0]), Trim(row[1]), Trim(row[2]), Cell(row, 3))]
  {
    forall i | 0 <= i < 3 && i < |row| {
      TrimSpec(row[i]);
    }
  }

  /** FlatMap distributes over concatenation. */
  lemma {:induction false} FlatMapAppend<A, B>(f: A -> seq<B>, a: seq<A>, b: seq<A>)
    ensures FlatMap(f, a + b) == FlatMap(f, a) + FlatMap(f, b)
    decreases |b|
  {
    if b == [] {
      assert a + b == a;
    } else {
      var b' := b[..|b| - 1];
      assert (a + b)[..|a + b| - 1] == a + b';
      assert (a + b)[|a + b| - 1] == b[|b| - 1];
      FlatMapAppend(f, a, b');
    }
  }

  /** Every element of a FlatMap comes from the result on one input. */
  lemma {:induction false} FlatMapFrom<A, B>(f: A -> seq<B>, xs: seq<A>, y: B)
    requires y in FlatMap(f, xs)
    ensures exists i :: 0 <= i < |xs| && y in f(xs[i])
  {
    var n := |xs| - 1;
    var front := xs[..n];
    if y in FlatMap(f, front) {
      FlatMapFrom(f, front, y);
      var i :| 0 <= i < |front| && y in f(front[i]);
      assert xs[i] == front[i];
    }
  }

  /** Every result on an input is in the FlatMap. */
  lemma FlatMapHas<A, B>(f: A -> seq<B>, xs: seq<A>, i: nat)
    requires i < |xs|
    ensures forall y :: y in f(xs[i]) ==> y in FlatMap(f, xs)
  {
  }

  /** The rows' records are in file order: reading two stretches of rows one
      after the other gives the first stretch's records, then the second's. */
  lemma SurvivingAppend(a: seq<Row>, b: seq<Row>)
    ensures Surviving(a + b) == Surviving(a) + Surviving(b)
  {
    FlatMapAppend(Accept, a, b);
  }

  /** A record is read exactly when some data row is accepted as that record. */
  lemma SurvivingMember(rows: seq<Row>, t: CsvTransaction)
    ensures t in Surviving(rows) <==> exists i :: 0 <= i < |rows| && Accept(rows[i]) == [t]
  {
    if t in Surviving(rows) {
      FlatMapFrom(Accept, rows, t);
    }
    if exists i :: 0 <= i < |rows| && Accept(rows[i]) == [t] {
      var i :| 0 <= i < |rows| && Accept(rows[i]) == [t];
      FlatMapHas(Accept, rows, i);
    }
  }

  /** The header line never becomes a record, whatever it holds. */
  lemma HeaderIgnored(header: Row, other: Row, body: seq<Row>)
    ensures Records([header] + body) == Records([other] + body) == Surviving(body)
  {
  }

  /** Reading one more data line adds that line's contribution at the end. */
  lemma SurvivingStep(lines: seq<Row>, i: nat)
    requires 1 <= i < |lines|
    ensures Surviving(lines[1..i + 1]) == Surviving(lines[1..i]) + Accept(lines[i])
  {
    assert lines[1..i + 1] == lines[1..i] + [lines[i]];
    SurvivingAppend(lines[1..i], [lines[i]]);
    assert [lines[i]][..0] == [];
  }

  /** The category list grows with the records. */
  lemma CategoriesOfAppend(recs: seq<CsvTransaction>, more: seq<CsvTransaction>)
    ensures CategoriesOf(recs + more) == CategoriesOf(recs) + CategoriesOf(more)
  {
  }

  /** `handleCSVFile`: walk the data lines, trim, filter and accumulate. */
  method HandleCsvFile(lines: seq<Row>) returns (transactions: seq<CsvTransaction>, categories: seq<string>)
    ensures transactions == Records(lines)
    ensures categories == CategoriesOf(transactions)
  {
    transactions, categories := [], [];
    if |lines| == 0 {
      return;
    }
    var i := 1;
    while i < |lines|
      invariant 1 <= i <= |lines|
      invariant transactions == Surviving(lines[1..i])
      invariant categories == CategoriesOf(transactions)
    {
      var row := lines[i];
      var title, kind, value, category := Cell(row, 0), Cell(row, 1), Cell(row, 2), Cell(row, 3);
      SurvivingStep(lines, i);
      if title != "" && kind != "" && value != "" {
        var record := CsvTransaction(title, kind, value, category);
        assert Accept(row) == [record];
        CategoriesOfAppend(transactions, [record]);
        categories := categories + [category];
        transactions := transactions + [record];
      } else {
        assert Accept(row) == [];
      }
      i := i + 1;
    }
    assert lines[1..i] == lines[1..];
  }

  // ---------------------------------------------------------------------
  // Categories: the existing ones, and the new titles to create.

  /** The stored categories whose title is one of `titles`, in store order. */
  function Existing(cats: seq<Category>, titles: seq<string>): (r: seq<Category>)
    ensures forall c :: c in r <==> c in cats && c.title in titles
  {
    if cats == [] then []
    else (if cats[0].title in titles then [cats[0]] else []) + Existing(cats[1..], titles)
  }

  /** The elements of `s` that are not in `excluded`, in order. */
  function Without(s: seq<string>, excluded: seq<string>): (r: seq<string>)
    ensures forall x :: x in r <==> x in s && x !in excluded
  {
    if s == [] then []
    else (if s[0] in excluded then [] else [s[0]]) + Without(s[1..], excluded)
  }

  /** `filter((value, index, self) => self.indexOf(value) === index)` over the
      first `n` indices of `s`. */
  function KeepFirsts(s: seq<string>, n: nat): seq<string>
    requires n <= |s|
  {
    if n == 0 then []
    else KeepFirsts(s, n - 1) + (if IndexOf(s, s[n - 1]) == n - 1 then [s[n - 1]] else [])
  }

  function FirstOccurrences(s: seq<string>): seq<string>
  {
    KeepFirsts(s, |s|)
  }

  lemma {:induction false} KeepFirstsSpec(s: seq<string>, n: nat)
    requires n <= |s|
    ensures forall x :: x in KeepFirsts(s, n) <==> x in s[..n]
    ensures forall i :: 0 <= i < |KeepFirsts(s, n)| ==> IndexOf(s, KeepFirsts(s, n)[i]) < n
    ensures forall i, j :: 0 <= i < j < |KeepFirsts(s, n)| ==>
              IndexOf(s, KeepFirsts(s, n)[i]) < IndexOf(s, KeepFirsts(s, n)[j])
  {
    if n > 0 {
      KeepFirstsSpec(s, n - 1);
      var x := s[n - 1];
      var k := IndexOf(s, x);
      assert s[..n] == s[..n - 1] + [x];
      if k != n - 1 {
        assert x in s[..n - 1] by {
          assert s[..n - 1][k] == x;
        }
      }
    }
  }

  /** The deduplication keeps exactly the elements of `s`, each once, in the
      order of their first occurrence in `s`. */
  lemma FirstOccurrencesSpec(s: seq<string>)
    ensures NoDuplicates(FirstOccurrences(s))
    ensures forall x :: x in FirstOccurrences(s) <==> x in s
    ensures forall i, j :: 0 <= i < j < |FirstOccurrences(s)| ==>
              IndexOf(s, FirstOccurrences(s)[i]) < IndexOf(s, FirstOccurrences(s)[j])
  {
    KeepFirstsSpec(s, |s|);
    assert s[..|s|] == s;
  }

  /** Filtering keeps the relative first-occurrence order of what it keeps. */
  lemma {:induction false} WithoutOrder(s: seq<string>, excluded: seq<string>, x: string, y: string)
    requires x in Without(s, excluded) && y in Without(s, excluded)
    requires IndexOf(Without(s, excluded), x) < IndexOf(Without(s, excluded), y)
    ensures IndexOf(s, x) < IndexOf(s, y)
  {
    var w := Without(s, excluded);
    var w' := Without(s[1..], excluded);
    if s[0] in excluded {
      assert w == w';
      WithoutOrder(s[1..], excluded, x, y);
    } else {
      assert w == [s[0]] + w';
      assert w[1..] == w';
      if x != s[0] {
        WithoutOrder(s[1..], excluded, x, y);
      }
    }
  }

  /** The titles to create: the candidates that do not name an existing
      category, deduplicated. */
  function NewTitles(candidates: seq<string>, existingTitles: seq<string>): seq<string>
  {
    FirstOccurrences(Without(candidates, existingTitles))
  }

  /** New titles are distinct, are exactly the candidates that are not
      existing titles, and come in the candidates' first-occurrence order. */
  lemma NewTitlesSpec(candidates: seq<string>, existingTitles: seq<string>)
    ensures NoDuplicates(NewTitles(candidates, existingTitles))
    ensures forall x :: x in NewTitles(candidates, existingTitles) <==>
              x in candidates && x !in existingTitles
    ensures forall i, j :: 0 <= i < j < |NewTitles(candidates, existingTitles)| ==>
              IndexOf(candidates, NewTitles(candidates, existingTitles)[i])
              < IndexOf(candidates, NewTitles(candidates, existingTitles)[j])
  {
    var w := Without(candidates, existingTitles);
    var r := NewTitles(candidates, existingTitles);
    FirstOccurrencesSpec(w);
    forall i, j | 0 <= i < j < |r|
      ensures IndexOf(candidates, r[i]) < IndexOf(candidates, r[j])
    {
      WithoutOrder(candidates, existingTitles, r[i], r[j]);
    }
  }

  /** `create` on a list of titles; saving gives them fresh ids. */
  function NewCategories(titles: seq<string>, firstId: nat): seq<Category>
  {
    seq(|titles|, i requires 0 <= i < |titles| => Category(firstId + i, titles[i]))
  }

  /** The categories saved by an import over the store `cats`. */
  function Saved(cats: seq<Category>, candidates: seq<string>): seq<Category>
  {
    NewCategories(NewTitles(candidates, Titles(Existing(cats, candidates))), |cats|)
  }

  /** `[...newCategories, ...existentCategories]`. */
  function Pool(cats: seq<Category>, candidates: seq<string>): seq<Category>
  {
    Saved(cats, candidates) + Existing(cats, candidates)
  }

  /** Every candidate is the title of some pool category. */
  lemma PoolCovers(cats: seq<Category>, candidates: seq<string>)
    ensures forall x :: x in candidates ==> x in Titles(Pool(cats, candidates))
  {
    var existing := Existing(cats, candidates);
    var titles := NewTitles(candidates, Titles(existing));
    var saved := Saved(cats, candidates);
    var pool := Pool(cats, candidates);
    NewTitlesSpec(candidates, Titles(existing));
    forall x | x in candidates
      ensures x in Titles(pool)
    {
      if x in Titles(existing) {
        var k :| 0 <= k < |existing| && Titles(existing)[k] == x;
        assert Titles(pool)[|saved| + k] == x;
      } else {
        var k :| 0 <= k < |titles| && titles[k] == x;
        assert Titles(pool)[k] == x;
      }
    }
  }

  /** The saved titles are distinct candidates, and none names a stored category. */
  lemma SavedFresh(cats: seq<Category>, candidates: seq<string>)
    ensures NoDuplicates(Titles(Saved(cats, candidates)))
    ensures forall c :: c in Saved(cats, candidates) ==>
              c.title in candidates && c.title !in Titles(cats)
  {
    var existing := Existing(cats, candidates);
    var titles := NewTitles(candidates, Titles(existing));
    var saved := Saved(cats, candidates);
    NewTitlesSpec(candidates, Titles(existing));
    assert Titles(saved) == titles;
    forall c | c in saved
      ensures c.title in candidates && c.title !in Titles(cats)
    {
      assert c.title in titles;
      forall i | 0 <= i < |cats|
        ensures Titles(cats)[i] != c.title
      {
        if cats[i].title in candidates {
          assert cats[i] in existing;
          var k :| 0 <= k < |existing| && existing[k] == cats[i];
          assert Titles(existing)[k] == cats[i].title;
        }
      }
    }
  }

  /** Saving the new categories keeps titles unique and ids positional. */
  lemma SavedKeepsStore(cats: seq<Category>, candidates: seq<string>)
    ensures UniqueTitles(cats) ==> UniqueTitles(cats + Saved(cats, candidates))
    ensures PositionalIds(cats) ==> PositionalIds(cats + Saved(cats, candidates))
  {
    var saved := Saved(cats, candidates);
    SavedFresh(cats, candidates);
    if UniqueTitles(cats) {
      var all := cats + saved;
      forall i, j | 0 <= i < j < |all|
        ensures Titles(all)[i] != Titles(all)[j]
      {
        if j < |cats| {
          assert Titles(cats)[i] == all[i].title && Titles(cats)[j] == all[j].title;
        } else if i < |cats| {
          assert all[j] in saved;
          assert Titles(cats)[i] == all[i].title;
        } else {
          assert Titles(saved)[i - |cats|] == all[i].title;
          assert Titles(saved)[j - |cats|] == all[j].title;
        }
      }
    }
  }

  // ---------------------------------------------------------------------
  // Materialising and saving the transactions.

  /** `create` on the records, each linked to the first pool category with
      its category title (none when there is no such category); `toValue`
      stands for the conversion of the value text to the numeric column. */
  function Materialise(recs: seq<CsvTransaction>, pool: seq<Category>, firstId: nat,
                       toValue: string -> int): seq<Transaction>
  {
    seq(|recs|, i requires 0 <= i < |recs| =>
      Transaction(firstId + i, recs[i].title, recs[i].kind, toValue(recs[i].value),
                  FindByTitle(pool, recs[i].category)))
  }

  /** One transaction per record, in order, keeping the record's title, type
      and value. A transaction has no category exactly when no pool category
      carries its record's category title; otherwise it is linked to the
      first pool category with that title. */
  lemma MaterialiseSpec(recs: seq<CsvTransaction>, pool: seq<Category>, firstId: nat,
                        toValue: string -> int)
    ensures var ts := Materialise(recs, pool, firstId, toValue);
            && |ts| == |recs|
            && forall i :: 0 <= i < |recs| ==>
                 && ts[i].id == firstId + i
                 && ts[i].title == recs[i].title
                 && ts[i].kind == recs[i].kind
                 && ts[i].value == toValue(recs[i].value)
                 && (ts[i].category.None? <==> recs[i].category !in Titles(pool))
                 && (ts[i].category.Some? ==>
                       && ts[i].category.value.title == recs[i].category
                       && exists k :: 0 <= k < |pool| && pool[k] == ts[i].category.value
                                      && recs[i].category !in Titles(pool[..k]))
  {
    var ts := Materialise(recs, pool, firstId, toValue);
    forall i | 0 <= i < |recs| && ts[i].category.Some?
      ensures exists k :: 0 <= k < |pool| && pool[k] == ts[i].category.value
                          && recs[i].category !in Titles(pool[..k])
    {
      assert ts[i].category == FindByTitle(pool, recs[i].category);
      var k := IndexOf(Titles(pool), recs[i].category);
      assert Titles(pool[..k]) == Titles(pool)[..k];
    }
  }

  /** The outcome of one import together with the repositories after it. */
  datatype Import = Import(created: seq<Transaction>, saved: seq<Category>, after: State)

  /** The whole import, as a function of the repositories and the records:
      the saved categories are appended to the category store and one
      transaction per record to the transaction store. */
  function ImportRecords(s: State, recs: seq<CsvTransaction>, toValue: string -> int): (r: Import)
    ensures r.after.categories == s.categories + r.saved
    ensures r.after.transactions == s.transactions + r.created
    ensures |r.created| == |recs|
  {
    var candidates := CategoriesOf(recs);
    var saved := Saved(s.categories, candidates);
    var created := Materialise(recs, Pool(s.categories, candidates), |s.transactions|, toValue);
    Import(created, saved, State(s.categories + saved, s.transactions + created))
  }

  /** Each transaction keeps its record's title, type and value and is linked
      to a stored category titled by the record's category; the new
      categories are distinct candidates that name no existing category. */
  lemma ImportSpec(s: State, recs: seq<CsvTransaction>, toValue: string -> int)
    ensures var r := ImportRecords(s, recs, toValue);
            forall i :: 0 <= i < |recs| ==>
              && r.created[i].id == |s.transactions| + i
              && r.created[i].title == recs[i].title
              && r.created[i].kind == recs[i].kind
              && r.created[i].value == toValue(recs[i].value)
              && r.created[i].category.Some?
              && r.created[i].category.value.title == recs[i].category
              && r.created[i].category.value in r.after.categories
    ensures var r := ImportRecords(s, recs, toValue);
            && NoDuplicates(Titles(r.saved))
            && forall c :: c in r.saved ==> c.title in CategoriesOf(recs) && c.title !in Titles(s.categories)
  {
    var candidates := CategoriesOf(recs);
    var pool := Pool(s.categories, candidates);
    var r := ImportRecords(s, recs, toValue);
    PoolCovers(s.categories, candidates);
    SavedFresh(s.categories, candidates);
    MaterialiseSpec(recs, pool, |s.transactions|, toValue);
    assert forall i :: 0 <= i < |recs| ==> recs[i].category == candidates[i];
    assert forall c :: c in pool ==> c in r.after.categories;
  }

  /** An import keeps the repository invariant. */
  lemma ImportConsistent(s: State, recs: seq<CsvTransaction>, toValue: string -> int)
    requires Consistent(s)
    ensures Consistent(ImportRecords(s, recs, toValue).after)
  {
    var r := ImportRecords(s, recs, toValue);
    ImportSpec(s, recs, toValue);
    SavedKeepsStore(s.categories, CategoriesOf(recs));
    assert forall c :: c in s.categories ==> c in r.after.categories;
  }

  /** Each imported transaction is linked to the one category of the store
      afterwards that carries its record's category title, whether that
      category existed before or was created by this import; records with the
      same category text therefore share one category. */
  lemma LinkedToStoredCategory(s: State, recs: seq<CsvTransaction>, toValue: string -> int, i: nat)
    requires Consistent(s)
    requires i < |recs|
    ensures var r := ImportRecords(s, recs, toValue);
            r.created[i].category == FindByTitle(r.after.categories, recs[i].category)
  {
    var r := ImportRecords(s, recs, toValue);
    ImportSpec(s, recs, toValue);
    ImportConsistent(s, recs, toValue);
    FindByTitleUnique(r.after.categories, r.created[i].category.value);
  }

  /** `saveUniqueCategories`: look up the existing categories, compute and
      save the new ones, and return new followed by existing. */
  method SaveUniqueCategories(store: Store, categories: seq<string>) returns (pool: seq<Category>)
    modifies store
    ensures pool == Pool(old(store.categories), categories)
    ensures store.categories == old(store.categories) + Saved(old(store.categories), categories)
    ensures store.transactions == old(store.transactions)
    ensures store.journal == old(store.journal) + [CategoriesSaved(Saved(old(store.categories), categories))]
  {
    var existing := Existing(store.categories, categories);
    var existingTitles := Titles(existing);
    var addTitles := NewTitles(categories, existingTitles);
    var newCategories := NewCategories(addTitles, |store.categories|);
    store.SaveCategories(newCategories);
    pool := newCategories + existing;
  }

  /** `saveTransactions`: resolve the categories, then create and save one
      transaction per record. */
  method SaveTransactions(store: Store, transactions: seq<CsvTransaction>, categories: seq<string>,
                          toValue: string -> int)
    returns (created: seq<Transaction>)
    modifies store
    ensures created == Materialise(transactions, Pool(old(store.categories), categories),
                                   |old(store.transactions)|, toValue)
    ensures store.categories == old(store.categories) + Saved(old(store.categories), categories)
    ensures store.transactions == old(store.transactions) + created
    ensures store.journal == old(store.journal)
                             + [CategoriesSaved(Saved(old(store.categories), categories)),
                                TransactionsSaved(created)]
  {
    var allCategories := SaveUniqueCategories(store, categories);
    created := Materialise(transactions, allCategories, |store.transactions|, toValue);
    store.SaveTransactions(created);
  }

  /** `execute`: read the file, save categories and transactions, and only
      then remove the file. */
  method Execute(store: Store, path: string, lines: seq<Row>, toValue: string -> int)
    returns (created: seq<Transaction>)
    requires store.Valid()
    modifies store
    ensures store.Valid()
    ensures var imp := ImportRecords(old(store.Contents()), Records(lines), toValue);
            && created == imp.created
            && store.Contents() == imp.after
            && store.journal == old(store.journal)
                                + [CategoriesSaved(imp.saved), TransactionsSaved(created), FileUnlinked(path)]
  {
    ghost var imp := ImportRecords(store.Contents(), Records(lines), toValue);
    var transactions, categories := HandleCsvFile(lines);
    created := SaveTransactions(store, transactions, categories, toValue);
    assert store.Contents() == imp.after;
    ImportConsistent(old(store.Contents()), Records(lines), toValue);
    store.Unlink(path);
  }
}
