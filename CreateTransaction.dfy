/** Creation of a single transaction: an outcome that exceeds the current
    balance is refused before anything is written; otherwise the category is
    found by title or created, and one transaction is saved. */
module CreateTransaction {
  import opened Ledger

  /** The request body: title, value, type and category title. */
  datatype Request = Request(title: string, value: int, kind: string, category: string)

  const NotEnoughBalance: string := "You do not have enough balance"

  /** The created transaction, or the application error that was thrown. */
  datatype Result = Created(transaction: Transaction) | Failed(message: string)

  /** A resolved category together with the category store after resolution. */
  datatype Resolution = Resolution(category: Category, categories: seq<Category>)

  /** The outcome of one creation together with the repositories after it. */
  datatype Step = Step(result: Result, after: State)

  /** Get-or-create by exact title. */
  function Resolve(cats: seq<Category>, title: string): (r: Resolution)
    ensures r.category.title == title && r.category in r.categories
    ensures title in Titles(cats) ==> r.categories == cats
    ensures title !in Titles(cats) ==>
              r.categories == cats + [r.category] && r.category.id == |cats|
    ensures UniqueTitles(cats) ==> UniqueTitles(r.categories)
    ensures PositionalIds(cats) ==> PositionalIds(r.categories)
  {
    match FindByTitle(cats, title)
    case Some(found) => Resolution(found, cats)
    case None =>
      var created := Category(|cats|, title);
      assert forall i :: 0 <= i < |cats| ==> cats[i].title == Titles(cats)[i] != title;
      Resolution(created, cats + [created])
  }

  /** Resolving a title a second time returns the same category and adds nothing. */
  lemma ResolveIdempotent(cats: seq<Category>, title: string)
    ensures Resolve(Resolve(cats, title).categories, title) == Resolve(cats, title)
  {
    var first := Resolve(cats, title);
    if title !in Titles(cats) {
      FindByTitleAppend(cats, [first.category], title);
      assert Titles([first.category]) == [title];
    }
  }

  /** With unique titles, resolving the title of a stored category returns
      that category and leaves the store as it was. */
  lemma ResolveExisting(cats: seq<Category>, c: Category)
    requires UniqueTitles(cats) && c in cats
    ensures Resolve(cats, c.title) == Resolution(c, cats)
  {
    FindByTitleUnique(cats, c);
  }

  /** The whole service as a function of the repositories before the call. */
  function Create(s: State, req: Request): (r: Step)
    ensures r.result.Failed? <==> req.kind == Outcome && req.value > Total(s.transactions)
    ensures r.result.Failed? ==> r.result.message == NotEnoughBalance && r.after == s
    ensures r.result.Created? ==>
              var t := r.result.transaction;
              var res := Resolve(s.categories, req.category);
              && r.after.categories == res.categories
              && r.after.transactions == s.transactions + [t]
              && t == Transaction(|s.transactions|, req.title, req.kind, req.value, Some(res.category))
              && t.category.value.title == req.category
    ensures Consistent(s) ==> Consistent(r.after)
  {
    if req.kind == Outcome && req.value > Total(s.transactions) then
      Step(Failed(NotEnoughBalance), s)
    else
      var res := Resolve(s.categories, req.category);
      var t := Transaction(|s.transactions|, req.title, req.kind, req.value, Some(res.category));
      assert forall c :: c in s.categories ==> c in res.categories;
      Step(Created(t), State(res.categories, s.transactions + [t]))
  }

  /** After a successful creation the balance moves by exactly the new
      transaction's signed value, and an accepted outcome never leaves it
      below zero. */
  lemma CreateBalance(s: State, req: Request)
    requires Create(s, req).result.Created?
    ensures Total(Create(s, req).after.transactions)
         == Total(s.transactions) + Signed(Create(s, req).result.transaction)
    ensures req.kind == Outcome ==> Total(Create(s, req).after.transactions) >= 0
  {
  }

  /** The category journal entries between two category stores. */
  function CategoryEffects(before: seq<Category>, after: seq<Category>): seq<Effect>
  {
    if |before| < |after| then [CategoriesSaved(after[|before|..])] else []
  }

  /** `resolveCategory`: look up by title, and create and save when absent. */
  method ResolveCategory(store: Store, title: string) returns (category: Category)
    requires store.Valid()
    modifies store
    ensures store.Valid()
    ensures Resolution(category, store.categories) == Resolve(old(store.categories), title)
    ensures store.transactions == old(store.transactions)
    ensures store.journal == old(store.journal) + CategoryEffects(old(store.categories), store.categories)
  {
    // Instantiates Resolve's contract on the store as it was before the call.
    ghost var expected := Resolve(store.categories, title);
    var resolved := FindByTitle(store.categories, title);
    if resolved.None? {
      resolved := Some(Category(|store.categories|, title));
      store.SaveCategories([resolved.value]);
    }
    category := resolved.value;
  }

  /** `execute`: the balance guard, then resolution, creation and save. */
  method Execute(store: Store, req: Request) returns (result: Result)
    requires store.Valid()
    modifies store
    ensures store.Valid()
    ensures Step(result, store.Contents()) == Create(old(store.Contents()), req)
    ensures result.Failed? ==> store.journal == old(store.journal)
    ensures result.Created? ==>
              store.journal == old(store.journal)
                               + CategoryEffects(old(store.categories), store.categories)
                               + [TransactionsSaved([result.transaction])]
  {
    if req.kind == Outcome {
      var total := Total(store.transactions);
      if req.value > total {
        return Failed(NotEnoughBalance);
      }
    }
    var category := ResolveCategory(store, req.category);
    var t := Transaction(|store.transactions|, req.title, req.kind, req.value, Some(category));
    store.SaveTransactions([t]);
    result := Created(t);
  }
}
