/** Entities shared by the two services: categories, transactions, the balance
    derived from the transactions, and the store that the ORM repositories
    stand for. */
module Ledger {

  datatype Option<T> = None | Some(value: T)

  /** A category; its id is its position in the store (a fresh id on creation). */
  datatype Category = Category(id: nat, title: string)

  /** A transaction. `kind` is the raw type text: the single-creation path
      receives "income" or "outcome", the import path stores whatever the
      file says. `value` is a fixed-point amount. */
  datatype Transaction = Transaction(
    id: nat, title: string, kind: string, value: int, category: Option<Category>)

  const Income: string := "income"
  const Outcome: string := "outcome"

  /** The contents of both repositories. */
  datatype State = State(categories: seq<Category>, transactions: seq<Transaction>)

  /** What the services do to the world, in order: repository saves and the
      removal of the uploaded file. */
  datatype Effect =
    | CategoriesSaved(saved: seq<Category>)
    | TransactionsSaved(created: seq<Transaction>)
    | FileUnlinked(path: string)

  /** `Array.prototype.indexOf`: the first index holding `x`, or -1. */
  function IndexOf<T(==)>(s: seq<T>, x: T): (k: int)
    ensures -1 <= k < |s|
    ensures k == -1 <==> x !in s
    ensures 0 <= k ==> s[k] == x && x !in s[..k]
  {
    if |s| == 0 then -1
    else if s[0] == x then 0
    else
      var k := IndexOf(s[1..], x);
      if k < 0 then -1
      else
        assert s[..k + 1] == [s[0]] + s[1..][..k];
        k + 1
  }

  function Titles(cats: seq<Category>): (ts: seq<string>)
  {
    seq(|cats|, i requires 0 <= i < |cats| => cats[i].title)
  }

  /** Lookup by exact title: the first category whose title equals `title`. */
  function FindByTitle(cats: seq<Category>, title: string): (r: Option<Category>)
    ensures r.None? <==> title !in Titles(cats)
    ensures r.Some? ==> r.value in cats && r.value.title == title
  {
    var k := IndexOf(Titles(cats), title);
    if k < 0 then None else Some(cats[k])
  }

  /** `indexOf` on a concatenation searches the first part, then the second. */
  lemma {:induction false} IndexOfAppend<T>(a: seq<T>, b: seq<T>, x: T)
    ensures IndexOf(a + b, x)
         == if 0 <= IndexOf(a, x) then IndexOf(a, x)
            else if 0 <= IndexOf(b, x) then |a| + IndexOf(b, x)
            else -1
  {
    if a == [] {
      assert a + b == b;
    } else {
      assert (a + b)[0] == a[0];
      assert (a + b)[1..] == a[1..] + b;
      IndexOfAppend(a[1..], b, x);
    }
  }

  /** Looking up in a concatenation looks in the first part, then in the second. */
  lemma FindByTitleAppend(front: seq<Category>, back: seq<Category>, title: string)
    ensures FindByTitle(front + back, title)
         == if FindByTitle(front, title).Some? then FindByTitle(front, title)
            else FindByTitle(back, title)
  {
    assert Titles(front + back) == Titles(front) + Titles(back);
    IndexOfAppend(Titles(front), Titles(back), title);
  }

  /** No element occurs twice. */
  predicate NoDuplicates<T(==)>(s: seq<T>)
  {
    forall i, j :: 0 <= i < j < |s| ==> s[i] != s[j]
  }

  /** Category titles are pairwise distinct. */
  predicate UniqueTitles(cats: seq<Category>)
  {
    NoDuplicates(Titles(cats))
  }

  /** With unique titles, the lookup of a stored category's title finds it. */
  lemma FindByTitleUnique(cats: seq<Category>, c: Category)
    requires UniqueTitles(cats) && c in cats
    ensures FindByTitle(cats, c.title) == Some(c)
  {
    var i :| 0 <= i < |cats| && cats[i] == c;
    assert Titles(cats)[i] == c.title;
    assert forall j :: 0 <= j < |cats| && j != i ==> Titles(cats)[j] != c.title;
  }

  /** True when every category's id is its position in the store. */
  predicate PositionalIds(cats: seq<Category>)
  {
    forall i :: 0 <= i < |cats| ==> cats[i].id == i
  }

  /** The repository invariant: ids are positions, category titles are unique,
      and every transaction refers to a stored category. */
  predicate Consistent(s: State)
  {
    && PositionalIds(s.categories)
    && UniqueTitles(s.categories)
    && (forall i :: 0 <= i < |s.transactions| ==>
          && s.transactions[i].id == i
          && s.transactions[i].category.Some?
          && s.transactions[i].category.value in s.categories)
  }

  // ---------------------------------------------------------------------
  // Balance. The balance query of the transactions repository is not part of
  // this model; its total is taken to be the sum of the income values minus
  // the sum of the outcome values.

  function SumOfKind(ts: seq<Transaction>, kind: string): int
  {
    if ts == [] then 0
    else SumOfKind(ts[..|ts| - 1], kind)
         + (if ts[|ts| - 1].kind == kind then ts[|ts| - 1].value else 0)
  }

  function Total(ts: seq<Transaction>): int
  {
    SumOfKind(ts, Income) - SumOfKind(ts, Outcome)
  }

  /** The contribution of one transaction to the balance. */
  function Signed(t: Transaction): int
  {
    if t.kind == Income then t.value
    else if t.kind == Outcome then -t.value
    else 0
  }

  /** An independent, front-to-back running sum. */
  function SignedSum(ts: seq<Transaction>): int
  {
    if ts == [] then 0 else Signed(ts[0]) + SignedSum(ts[1..])
  }

  lemma {:induction false} SumOfKindAppend(a: seq<Transaction>, b: seq<Transaction>, kind: string)
    ensures SumOfKind(a + b, kind) == SumOfKind(a, kind) + SumOfKind(b, kind)
    decreases |b|
  {
    if b == [] {
      assert a + b == a;
    } else {
      var b' := b[..|b| - 1];
      assert (a + b)[..|a + b| - 1] == a + b';
      SumOfKindAppend(a, b', kind);
    }
  }

  /** The balance is additive over concatenation of ledgers. */
  lemma {:induction false} TotalAppend(a: seq<Transaction>, b: seq<Transaction>)
    ensures Total(a + b) == Total(a) + Total(b)
  {
    SumOfKindAppend(a, b, Income);
    SumOfKindAppend(a, b, Outcome);
  }

  /** The balance total equals the independently computed signed sum. */
  lemma {:induction false} TotalIsSignedSum(ts: seq<Transaction>)
    ensures Total(ts) == SignedSum(ts)
  {
    if ts != [] {
      TotalIsSignedSum(ts[1..]);
      assert ts == [ts[0]] + ts[1..];
      TotalAppend([ts[0]], ts[1..]);
      assert [ts[0]][..0] == [];
      assert SumOfKind([ts[0]], Income) == SumOfKind([], Income) + (if ts[0].kind == Income then ts[0].value else 0);
      assert SumOfKind([ts[0]], Outcome) == SumOfKind([], Outcome) + (if ts[0].kind == Outcome then ts[0].value else 0);
    }
  }

  // ---------------------------------------------------------------------

  /** The category and transaction repositories, with a journal of effects. */
  class Store {
    var categories: seq<Category>
    var transactions: seq<Transaction>
    var journal: seq<Effect>

    function Contents(): State
      reads this
    {
      State(categories, transactions)
    }

    ghost predicate Valid()
      reads this
    {
      Consistent(Contents())
    }

    constructor ()
      ensures Valid()
      ensures categories == [] && transactions == [] && journal == []
    {
      categories, transactions, journal := [], [], [];
    }

    /** `save` on the category repository. */
    method SaveCategories(cs: seq<Category>)
      modifies this
      ensures categories == old(categories) + cs
      ensures transactions == old(transactions)
      ensures journal == old(journal) + [CategoriesSaved(cs)]
    {
      categories := categories + cs;
      journal := journal + [CategoriesSaved(cs)];
    }

    /** `save` on the transaction repository. */
    method SaveTransactions(ts: seq<Transaction>)
      modifies this
      ensures transactions == old(transactions) + ts
      ensures categories == old(categories)
      ensures journal == old(journal) + [TransactionsSaved(ts)]
    {
      transactions := transactions + ts;
      journal := journal + [TransactionsSaved(ts)];
    }

    /** Removal of an uploaded file; only its place in the journal is modelled. */
    method Unlink(path: string)
      modifies this
      ensures categories == old(categories) && transactions == old(transactions)
      ensures journal == old(journal) + [FileUnlinked(path)]
    {
      journal := journal + [FileUnlinked(path)];
    }
  }
}
