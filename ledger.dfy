/** The transaction fee ledger: every completed transaction inside the date
    window credits its owners, one add per player added by a waiver or
    free-agent claim and one trade per roster taking part in a trade. The
    ledger lists each credited owner once with their adds, trades and total,
    ordered by total, then adds, then trades (all descending), then name. */
module Ledger {
  import opened Base
  import opened Sleeper
  import StableSort

  /** A transaction as fetched. `adds` holds the values of the `adds` object:
      for every added player, the roster that added it. */
  datatype Transaction = Transaction(txType: Option<string>, status: Option<string>, statusUpdated: Option<int>,
                                     adds: Option<seq<int>>, rosterIds: Option<seq<int>>)

  /** `withinRange`: a missing or zero timestamp is in range; otherwise the
      window's bounds are inclusive. */
  predicate WithinRange(ts: Option<int>, start: int, end: int)
  {
    ts.None? || ts.value == 0 || (start <= ts.value && ts.value <= end)
  }

  /** The transaction counts: in range and completed. */
  predicate Counted(t: Transaction, start: int, end: int)
  {
    WithinRange(t.statusUpdated, start, end) && t.status == Some("complete")
  }

  /** One `+= 1` of the ledger, for an owner. */
  datatype Credit = AddFor(owner: string) | TradeFor(owner: string)

  function AddCredits(rids: seq<int>, users: seq<Member>, rosters: seq<Roster>): (cs: seq<Credit>)
    ensures |cs| == |rids|
    ensures forall i :: 0 <= i < |rids| ==> cs[i] == AddFor(OwnerName(users, rosters, rids[i]))
    ensures forall c :: c in cs ==> c.AddFor?
  {
    seq(|rids|, i requires 0 <= i < |rids| => AddFor(OwnerName(users, rosters, rids[i])))
  }

  function TradeCredits(rids: seq<int>, users: seq<Member>, rosters: seq<Roster>): (cs: seq<Credit>)
    ensures |cs| == |rids|
    ensures forall i :: 0 <= i < |rids| ==> cs[i] == TradeFor(OwnerName(users, rosters, rids[i]))
    ensures forall c :: c in cs ==> c.TradeFor?
  {
    seq(|rids|, i requires 0 <= i < |rids| => TradeFor(OwnerName(users, rosters, rids[i])))
  }

  /** `rid => ownerName(rid) === n` */
  function OwnedBy(users: seq<Member>, rosters: seq<Roster>, n: string): int -> bool
  {
    (rid: int) => OwnerName(users, rosters, rid) == n
  }

  /** A claim credits only adds, and owner `n` as many as the added players
      whose roster `n` owns. */
  lemma {:induction false} AddCreditsCount(rids: seq<int>, users: seq<Member>, rosters: seq<Roster>, n: string)
    ensures multiset(AddCredits(rids, users, rosters))[AddFor(n)] == |Filter(rids, OwnedBy(users, rosters, n))|
  {
    if rids != [] {
      var init, last := rids[..|rids| - 1], rids[|rids| - 1];
      assert rids == init + [last];
      AddCreditsCount(init, users, rosters, n);
      AddCreditsSnoc(init, last, users, rosters);
      OwnedSnoc(init, last, users, rosters, n);
      var who := OwnerName(users, rosters, last);
      CountStep(AddCredits(rids, users, rosters), AddCredits(init, users, rosters), AddFor(who), AddFor(n),
                Filter(rids, OwnedBy(users, rosters, n)), Filter(init, OwnedBy(users, rosters, n)), last, who == n);
    }
  }

  /** A trade credits only trades, and owner `n` as many as the trading
      rosters `n` owns. */
  lemma {:induction false} TradeCreditsCount(rids: seq<int>, users: seq<Member>, rosters: seq<Roster>, n: string)
    ensures multiset(TradeCredits(rids, users, rosters))[TradeFor(n)] == |Filter(rids, OwnedBy(users, rosters, n))|
  {
    if rids != [] {
      var init, last := rids[..|rids| - 1], rids[|rids| - 1];
      assert rids == init + [last];
      TradeCreditsCount(init, users, rosters, n);
      TradeCreditsSnoc(init, last, users, rosters);
      OwnedSnoc(init, last, users, rosters, n);
      var who := OwnerName(users, rosters, last);
      CountStep(TradeCredits(rids, users, rosters), TradeCredits(init, users, rosters), TradeFor(who), TradeFor(n),
                Filter(rids, OwnedBy(users, rosters, n)), Filter(init, OwnedBy(users, rosters, n)), last, who == n);
    }
  }

  /** One step of the counting inductions: appending credit `c` raises the
      count of `x` exactly when the filtered list gains `last`. */
  lemma CountStep(cs: seq<Credit>, cs0: seq<Credit>, c: Credit, x: Credit, f: seq<int>, f0: seq<int>, last: int, hit: bool)
    requires cs == cs0 + [c] && f == f0 + (if hit then [last] else [])
    requires hit == (c == x) && multiset(cs0)[x] == |f0|
    ensures multiset(cs)[x] == |f|
  {
    assert multiset(cs) == multiset(cs0) + multiset{c};
  }

  lemma AddCreditsSnoc(init: seq<int>, last: int, users: seq<Member>, rosters: seq<Roster>)
    ensures AddCredits(init + [last], users, rosters) == AddCredits(init, users, rosters) + [AddFor(OwnerName(users, rosters, last))]
  {
  }

  lemma TradeCreditsSnoc(init: seq<int>, last: int, users: seq<Member>, rosters: seq<Roster>)
    ensures TradeCredits(init + [last], users, rosters) == TradeCredits(init, users, rosters) + [TradeFor(OwnerName(users, rosters, last))]
  {
  }

  lemma OwnedSnoc(init: seq<int>, last: int, users: seq<Member>, rosters: seq<Roster>, n: string)
    ensures Filter(init + [last], OwnedBy(users, rosters, n))
         == Filter(init, OwnedBy(users, rosters, n)) + (if OwnerName(users, rosters, last) == n then [last] else [])
  {
    var p := OwnedBy(users, rosters, n);
    FilterConcat(init, [last], p);
    FilterSingleton(last, p);
  }

  predicate IsClaim(kind: string)
  {
    kind == "waiver" || kind == "free_agent"
  }

  /** The credits of one transaction, in order: none unless it counts, adds
      for a waiver or free-agent claim, trades for a trade, and nothing for
      any other type. */
  function TxnCredits(t: Transaction, users: seq<Member>, rosters: seq<Roster>, start: int, end: int): (cs: seq<Credit>)
    ensures !Counted(t, start, end) ==> cs == []
    ensures forall c :: c in cs ==> (c.AddFor? && IsClaim(t.txType.GetOr(""))) || (c.TradeFor? && t.txType == Some("trade"))
    ensures Counted(t, start, end) && IsClaim(t.txType.GetOr("")) ==> |cs| == |t.adds.GetOr([])|
    ensures Counted(t, start, end) && t.txType == Some("trade") ==> |cs| == |t.rosterIds.GetOr([])|
    ensures Counted(t, start, end) && IsClaim(t.txType.GetOr("")) ==> cs == AddCredits(t.adds.GetOr([]), users, rosters)
    ensures Counted(t, start, end) && t.txType == Some("trade") ==> cs == TradeCredits(t.rosterIds.GetOr([]), users, rosters)
    ensures !IsClaim(t.txType.GetOr("")) && t.txType != Some("trade") ==> cs == []
  {
    if !Counted(t, start, end) then []
    else
      var kind := t.txType.GetOr("");
      if IsClaim(kind) then AddCredits(t.adds.GetOr([]), users, rosters)
      else if kind == "trade" then TradeCredits(t.rosterIds.GetOr([]), users, rosters)
      else []
  }

  /** One transaction gives owner `n` an add per added player whose roster `n`
      owns when it is a counted claim, a trade per trading roster `n` owns
      when it is a counted trade, and nothing otherwise. */
  lemma TxnCreditsCount(t: Transaction, users: seq<Member>, rosters: seq<Roster>, start: int, end: int, n: string)
    ensures var cs, kind := TxnCredits(t, users, rosters, start, end), t.txType.GetOr("");
      && multiset(cs)[AddFor(n)]
         == (if Counted(t, start, end) && IsClaim(kind) then |Filter(t.adds.GetOr([]), OwnedBy(users, rosters, n))| else 0)
      && multiset(cs)[TradeFor(n)]
         == (if Counted(t, start, end) && kind == "trade" then |Filter(t.rosterIds.GetOr([]), OwnedBy(users, rosters, n))| else 0)
  {
    var cs, kind := TxnCredits(t, users, rosters, start, end), t.txType.GetOr("");
    if Counted(t, start, end) && IsClaim(kind) {
      AddCreditsCount(t.adds.GetOr([]), users, rosters, n);
      assert TradeFor(n) !in cs;
    } else if Counted(t, start, end) && kind == "trade" {
      TradeCreditsCount(t.rosterIds.GetOr([]), users, rosters, n);
      assert AddFor(n) !in cs;
    }
  }

  /** The credits of all transactions, in order. */
  function AllCredits(txns: seq<Transaction>, users: seq<Member>, rosters: seq<Roster>, start: int, end: int): seq<Credit>
  {
    if txns == [] then []
    else AllCredits(txns[..|txns| - 1], users, rosters, start, end) + TxnCredits(txns[|txns| - 1], users, rosters, start, end)
  }

  datatype Counts = Counts(adds: nat, trades: nat)

  /** The `ledger` map together with the insertion order of its keys. */
  datatype Book = Book(entries: map<string, Counts>, order: seq<string>)

  const EmptyBook: Book := Book(map[], [])

  /** An owner's counters, zero when the owner has no entry. */
  function Get(b: Book, owner: string): Counts
  {
    if owner in b.entries then b.entries[owner] else Counts(0, 0)
  }

  /** `ensure(name)` followed by the `+= 1`. */
  function Apply(b: Book, c: Credit): Book
  {
    var n := Get(b, c.owner);
    Book(b.entries[c.owner := if c.AddFor? then Counts(n.adds + 1, n.trades) else Counts(n.adds, n.trades + 1)],
         if c.owner in b.entries then b.order else b.order + [c.owner])
  }

  /** The book after the credits `cs`, in order. */
  function ApplyAll(b: Book, cs: seq<Credit>): Book
  {
    if cs == [] then b else Apply(ApplyAll(b, cs[..|cs| - 1]), cs[|cs| - 1])
  }

  /** One output row. */
  datatype Row = Row(owner: string, adds: nat, trades: nat, total: nat)

  function RowOf(b: Book, owner: string): Row
  {
    var n := Get(b, owner);
    Row(owner, n.adds, n.trades, n.adds + n.trades)
  }

  /** `Array.from(ledger.entries()).map(...)` */
  function RowsOf(b: Book): (rows: seq<Row>)
    ensures |rows| == |b.order|
    ensures forall i :: 0 <= i < |rows| ==> rows[i] == RowOf(b, b.order[i])
    ensures forall i :: 0 <= i < |rows| ==>
      && rows[i].owner == b.order[i]
      && Counts(rows[i].adds, rows[i].trades) == Get(b, b.order[i])
      && rows[i].total == rows[i].adds + rows[i].trades
  {
    seq(|b.order|, i requires 0 <= i < |b.order| => RowOf(b, b.order[i]))
  }

  /** The ledger comparator: higher total, then more adds, then more trades,
      then the owner's name in ascending order. */
  predicate RowBefore(a: Row, b: Row)
  {
    || a.total > b.total
    || (a.total == b.total && a.adds > b.adds)
    || (a.total == b.total && a.adds == b.adds && a.trades > b.trades)
    || (a.total == b.total && a.adds == b.adds && a.trades == b.trades && LexLess(a.owner, b.owner))
  }

  /** The rows `sync` stores. */
  function LedgerRows(txns: seq<Transaction>, users: seq<Member>, rosters: seq<Roster>, start: int, end: int): seq<Row>
  {
    StableSort.SortBy(RowsOf(ApplyAll(EmptyBook, AllCredits(txns, users, rosters, start, end))), RowBefore)
  }

  /** Applying two lists of credits in turn is applying their concatenation. */
  lemma {:induction false} ApplyAllConcat(b: Book, a: seq<Credit>, c: seq<Credit>)
    ensures ApplyAll(b, a + c) == ApplyAll(ApplyAll(b, a), c)
  {
    if c == [] {
      assert a + c == a;
    } else {
      assert (a + c)[..|a + c| - 1] == a + c[..|c| - 1];
      ApplyAllConcat(b, a, c[..|c| - 1]);
    }
  }

  lemma ApplyAllSnoc(b: Book, cs: seq<Credit>, j: nat)
    requires j < |cs|
    ensures ApplyAll(b, cs[..j + 1]) == Apply(ApplyAll(b, cs[..j]), cs[j])
  {
    assert cs[..j + 1][..j] == cs[..j];
  }

  /** `ensure(name).adds += 1` (`isAdd`) or `ensure(name).trades += 1`: the
      owner gets a zero entry, appended to the key order, when missing, and then
      one counter goes up. */
  method Bump(entries0: map<string, Counts>, order0: seq<string>, name: string, isAdd: bool)
    returns (entries: map<string, Counts>, order: seq<string>)
    ensures Book(entries, order) == Apply(Book(entries0, order0), if isAdd then AddFor(name) else TradeFor(name))
  {
    entries, order := entries0, order0;
    if name !in entries {
      entries := entries[name := Counts(0, 0)];
      order := order + [name];
    }
    var n := entries[name];
    entries := entries[name := if isAdd then Counts(n.adds + 1, n.trades) else Counts(n.adds, n.trades + 1)];
  }

  /** The loop over `adds` (`isAdd`) or over `roster_ids` of one transaction. */
  method CreditRosters(entries0: map<string, Counts>, order0: seq<string>, rids: seq<int>,
                       users: seq<Member>, rosters: seq<Roster>, isAdd: bool)
    returns (entries: map<string, Counts>, order: seq<string>)
    ensures Book(entries, order)
         == ApplyAll(Book(entries0, order0), if isAdd then AddCredits(rids, users, rosters) else TradeCredits(rids, users, rosters))
  {
    ghost var cs := if isAdd then AddCredits(rids, users, rosters) else TradeCredits(rids, users, rosters);
    entries, order := entries0, order0;
    for j := 0 to |rids|
      invariant Book(entries, order) == ApplyAll(Book(entries0, order0), cs[..j])
    {
      ApplyAllSnoc(Book(entries0, order0), cs, j);
      var name := OwnerName(users, rosters, rids[j]);
      assert cs[j] == if isAdd then AddFor(name) else TradeFor(name);
      entries, order := Bump(entries, order, name, isAdd);
    }
    assert cs[..|rids|] == cs;
  }

  /** The ledger part of `sync`, once every week's transactions are fetched. */
  method Sync(txns: seq<Transaction>, users: seq<Member>, rosters: seq<Roster>, start: int, end: int)
    returns (rows: seq<Row>)
    ensures rows == LedgerRows(txns, users, rosters, start, end)
  {
    var entries: map<string, Counts> := map[];
    var order: seq<string> := [];
    for i := 0 to |txns|
      invariant Book(entries, order) == ApplyAll(EmptyBook, AllCredits(txns[..i], users, rosters, start, end))
    {
      assert txns[..i + 1][..i] == txns[..i];
      ghost var done := AllCredits(txns[..i], users, rosters, start, end);
      ghost var cs := TxnCredits(txns[i], users, rosters, start, end);
      assert AllCredits(txns[..i + 1], users, rosters, start, end) == done + cs;
      ApplyAllConcat(EmptyBook, done, cs);
      var t := txns[i];
      if !(t.statusUpdated.None? || t.statusUpdated.value == 0 || (start <= t.statusUpdated.value && t.statusUpdated.value <= end)) {
        continue;
      }
      if t.status != Some("complete") {
        continue;
      }
      var kind := if t.txType.Some? then t.txType.value else "";
      if kind == "waiver" || kind == "free_agent" {
        var adds := if t.adds.Some? then t.adds.value else [];
        entries, order := CreditRosters(entries, order, adds, users, rosters, true);
      } else if kind == "trade" {
        var rids := if t.rosterIds.Some? then t.rosterIds.value else [];
        entries, order := CreditRosters(entries, order, rids, users, rosters, false);
      }
    }
    assert txns[..|txns|] == txns;
    rows := StableSort.SortBy(RowsOf(Book(entries, order)), RowBefore);
  }

  /** The book's keys are its insertion order, each once. */
  ghost predicate WellKeyed(b: Book)
  {
    && (forall k :: k in b.entries <==> k in b.order)
    && (forall i, j :: 0 <= i < j < |b.order| ==> b.order[i] != b.order[j])
  }

  /** After the credits `cs`, every owner's counters have gone up by the number
      of their add and trade credits, and exactly the credited owners have
      been added to the book, which stays well keyed. */
  lemma {:induction false} ApplyAllCounts(b: Book, cs: seq<Credit>)
    requires WellKeyed(b)
    ensures WellKeyed(ApplyAll(b, cs))
    ensures forall name ::
      Get(ApplyAll(b, cs), name) == Counts(Get(b, name).adds + multiset(cs)[AddFor(name)], Get(b, name).trades + multiset(cs)[TradeFor(name)])
    ensures forall name :: name in ApplyAll(b, cs).entries ==>
      name in b.entries || AddFor(name) in cs || TradeFor(name) in cs
    ensures forall c :: c in cs ==> c.owner in ApplyAll(b, cs).entries
  {
    ApplyAllWellKeyed(b, cs);
    ApplyAllGet(b, cs);
    ApplyAllKeys(b, cs);
    ApplyAllCovers(b, cs);
  }

  lemma {:induction false} ApplyAllWellKeyed(b: Book, cs: seq<Credit>)
    requires WellKeyed(b)
    ensures WellKeyed(ApplyAll(b, cs))
  {
    if cs != [] {
      var init, c := cs[..|cs| - 1], cs[|cs| - 1];
      assert cs == init + [c];
      ApplyAllWellKeyed(b, init);
      ApplyCounts(ApplyAll(b, init), c);
    }
  }

  lemma {:induction false} ApplyAllGet(b: Book, cs: seq<Credit>)
    requires WellKeyed(b)
    ensures forall name ::
      Get(ApplyAll(b, cs), name) == Counts(Get(b, name).adds + multiset(cs)[AddFor(name)], Get(b, name).trades + multiset(cs)[TradeFor(name)])
  {
    if cs != [] {
      var init, c := cs[..|cs| - 1], cs[|cs| - 1];
      assert cs == init + [c];
      ApplyAllGet(b, init);
      ApplyAllWellKeyed(b, init);
      ApplyCounts(ApplyAll(b, init), c);
      assert multiset(cs) == multiset(init) + multiset{c};
      forall name ensures
        Get(ApplyAll(b, cs), name) == Counts(Get(b, name).adds + multiset(cs)[AddFor(name)], Get(b, name).trades + multiset(cs)[TradeFor(name)])
      {
        assert multiset(cs)[AddFor(name)] == multiset(init)[AddFor(name)] + (if c == AddFor(name) then 1 else 0);
        assert multiset(cs)[TradeFor(name)] == multiset(init)[TradeFor(name)] + (if c == TradeFor(name) then 1 else 0);
      }
    }
  }

  lemma {:induction false} ApplyAllKeys(b: Book, cs: seq<Credit>)
    requires WellKeyed(b)
    ensures forall name :: name in ApplyAll(b, cs).entries ==>
      name in b.entries || AddFor(name) in cs || TradeFor(name) in cs
  {
    if cs != [] {
      var init, c := cs[..|cs| - 1], cs[|cs| - 1];
      assert cs == init + [c];
      ApplyAllKeys(b, init);
      ApplyAllWellKeyed(b, init);
      ApplyCounts(ApplyAll(b, init), c);
      forall name | name in ApplyAll(b, cs).entries ensures name in b.entries || AddFor(name) in cs || TradeFor(name) in cs {
        if name in ApplyAll(b, init).entries {
          assert AddFor(name) in init ==> AddFor(name) in cs;
          assert TradeFor(name) in init ==> TradeFor(name) in cs;
        }
      }
    }
  }

  lemma {:induction false} ApplyAllCovers(b: Book, cs: seq<Credit>)
    requires WellKeyed(b)
    ensures forall c :: c in cs ==> c.owner in ApplyAll(b, cs).entries
  {
    if cs != [] {
      var init, c := cs[..|cs| - 1], cs[|cs| - 1];
      assert cs == init + [c];
      ApplyAllCovers(b, init);
      ApplyAllWellKeyed(b, init);
      ApplyCounts(ApplyAll(b, init), c);
      forall d | d in cs ensures d.owner in ApplyAll(b, cs).entries {
        if d in init {
          assert d.owner in ApplyAll(b, init).entries;
        }
      }
    }
  }

  /** One credit adds one to its owner's matching counter and nothing else,
      adding the owner to the book when new. */
  lemma ApplyCounts(b: Book, c: Credit)
    requires WellKeyed(b)
    ensures WellKeyed(Apply(b, c))
    ensures forall name ::
      Get(Apply(b, c), name) == Counts(Get(b, name).adds + (if c == AddFor(name) then 1 else 0), Get(b, name).trades + (if c == TradeFor(name) then 1 else 0))
    ensures forall name :: name in Apply(b, c).entries ==> name in b.entries || name == c.owner
    ensures c.owner in Apply(b, c).entries
  {
  }

  /** `b.total - a.total || b.adds - a.adds || b.trades - a.trades || a.owner.localeCompare(b.owner)` is a strict weak order. */
  lemma RowBeforeOrder()
    ensures StableSort.StrictWeakOrder(RowBefore)
  {
    forall a: Row ensures !RowBefore(a, a) {
      LexLessIrreflexive(a.owner);
    }
    forall a: Row, b: Row, c: Row | RowBefore(a, b) && RowBefore(b, c) ensures RowBefore(a, c) {
      if a.total == b.total == c.total && a.adds == b.adds == c.adds && a.trades == b.trades == c.trades {
        LexLessTransitive(a.owner, b.owner, c.owner);
      }
    }
    forall a: Row, b: Row, c: Row | RowBefore(a, c) ensures RowBefore(a, b) || RowBefore(b, c) {
      if !RowBefore(a, b) && !RowBefore(b, c) {
        if a.owner != b.owner {
          LexLessTotal(a.owner, b.owner);
        }
        if b.owner != c.owner {
          LexLessTotal(b.owner, c.owner);
        }
        if a.owner != b.owner && b.owner != c.owner {
          LexLessTransitive(c.owner, b.owner, a.owner);
          LexLessTransitive(a.owner, c.owner, a.owner);
        }
        LexLessIrreflexive(a.owner);
      }
    }
  }

  /** Rows of different owners are always ordered one way or the other. */
  lemma RowBeforeTotal(a: Row, b: Row)
    requires a.owner != b.owner
    ensures RowBefore(a, b) || RowBefore(b, a)
  {
    LexLessTotal(a.owner, b.owner);
  }

  /** In a list without repetitions every element occurs once. */
  lemma {:induction false} DistinctOnce<T>(s: seq<T>, x: T)
    requires forall i, j :: 0 <= i < j < |s| ==> s[i] != s[j]
    ensures multiset(s)[x] <= 1
  {
    if s != [] {
      var init := s[..|s| - 1];
      assert s == init + [s[|s| - 1]];
      DistinctOnce(init, x);
      if s[|s| - 1] == x {
        assert x !in init;
      }
    }
  }

  /** An element at two positions occurs at least twice. */
  lemma TwiceCounted<T>(s: seq<T>, i: nat, j: nat)
    requires i < j < |s| && s[i] == s[j]
    ensures multiset(s)[s[i]] >= 2
  {
    assert s == s[..j] + [s[j]] + s[j + 1..];
    assert s[i] in s[..j];
  }

  /** The rows of a well-keyed book: one per owner, each with that owner's counters. */
  lemma RowsOfWellKeyed(b: Book)
    requires WellKeyed(b)
    ensures var rows := RowsOf(b);
      && (forall i, j :: 0 <= i < j < |rows| ==> rows[i] != rows[j])
      && (forall r :: r in rows ==> r == RowOf(b, r.owner) && r.owner in b.entries)
  {
  }

  /** Each ledger row counts its owner's add credits and trade credits, its
      total is their sum, and only credited owners have a row. */
  lemma LedgerRowCounts(txns: seq<Transaction>, users: seq<Member>, rosters: seq<Roster>, start: int, end: int)
    ensures var cs, out := AllCredits(txns, users, rosters, start, end), LedgerRows(txns, users, rosters, start, end);
      forall r :: r in out ==>
        r.adds == multiset(cs)[AddFor(r.owner)] && r.trades == multiset(cs)[TradeFor(r.owner)]
        && r.total == r.adds + r.trades && r.total > 0
  {
    var cs := AllCredits(txns, users, rosters, start, end);
    var book := ApplyAll(EmptyBook, cs);
    var rows := RowsOf(book);
    ApplyAllCounts(EmptyBook, cs);
    RowsOfWellKeyed(book);
    forall r | r in StableSort.SortBy(rows, RowBefore)
      ensures r.adds == multiset(cs)[AddFor(r.owner)] && r.trades == multiset(cs)[TradeFor(r.owner)]
      ensures r.total == r.adds + r.trades && r.total > 0
    {
      assert r in multiset(rows);
      assert r == RowOf(book, r.owner) && r.owner in book.entries;
    }
  }

  /** Every credited owner has a row. */
  lemma LedgerCoversCredited(txns: seq<Transaction>, users: seq<Member>, rosters: seq<Roster>, start: int, end: int)
    ensures var cs, out := AllCredits(txns, users, rosters, start, end), LedgerRows(txns, users, rosters, start, end);
      forall c :: c in cs ==> exists r :: r in out && r.owner == c.owner
  {
    var cs := AllCredits(txns, users, rosters, start, end);
    var book := ApplyAll(EmptyBook, cs);
    var rows := RowsOf(book);
    ApplyAllWellKeyed(EmptyBook, cs);
    ApplyAllCovers(EmptyBook, cs);
    forall c | c in cs ensures exists r :: r in StableSort.SortBy(rows, RowBefore) && r.owner == c.owner {
      var k :| 0 <= k < |book.order| && book.order[k] == c.owner;
      assert rows[k] in multiset(StableSort.SortBy(rows, RowBefore));
    }
  }

  /** Sorting rows without repetitions, one per owner, orders them strictly. */
  lemma SortedRowsStrict(rows: seq<Row>)
    requires forall i, j :: 0 <= i < j < |rows| ==> rows[i] != rows[j]
    requires forall r, q :: r in rows && q in rows && r.owner == q.owner ==> r == q
    ensures var out := StableSort.SortBy(rows, RowBefore);
      forall i, j :: 0 <= i < j < |out| ==> out[i].owner != out[j].owner && RowBefore(out[i], out[j])
  {
    var out := StableSort.SortBy(rows, RowBefore);
    assert StableSort.Sorted(out, RowBefore) by {
      RowBeforeOrder();
      StableSort.SortBySorted(rows, RowBefore);
    }
    forall i, j | 0 <= i < j < |out| ensures out[i].owner != out[j].owner && RowBefore(out[i], out[j]) {
      assert out[i] in multiset(rows) && out[j] in multiset(rows);
      if out[i].owner == out[j].owner {
        TwiceCounted(out, i, j);
        DistinctOnce(rows, out[i]);
        assert false;
      }
      assert !RowBefore(out[j], out[i]);
      RowBeforeTotal(out[i], out[j]);
    }
  }

  /** No owner has two rows, and the rows are strictly ordered by total, adds
      and trades (descending), then by name. */
  lemma LedgerStrictOrder(txns: seq<Transaction>, users: seq<Member>, rosters: seq<Roster>, start: int, end: int)
    ensures var out := LedgerRows(txns, users, rosters, start, end);
      forall i, j :: 0 <= i < j < |out| ==> out[i].owner != out[j].owner && RowBefore(out[i], out[j])
  {
    var book := ApplyAll(EmptyBook, AllCredits(txns, users, rosters, start, end));
    assert WellKeyed(book) by {
      ApplyAllCounts(EmptyBook, AllCredits(txns, users, rosters, start, end));
    }
    RowsOfWellKeyed(book);
    var rows := RowsOf(book);
    assert forall r, q :: r in rows && q in rows && r.owner == q.owner ==> r == q;
    SortedRowsStrict(rows);
    assert LedgerRows(txns, users, rosters, start, end) == StableSort.SortBy(rows, RowBefore);
  }

  lemma AllCreditsSnoc(txns: seq<Transaction>, t: Transaction, users: seq<Member>, rosters: seq<Roster>, start: int, end: int)
    ensures AllCredits(txns + [t], users, rosters, start, end)
         == AllCredits(txns, users, rosters, start, end) + TxnCredits(t, users, rosters, start, end)
  {
    assert (txns + [t])[..|txns|] == txns;
  }

  /** Transactions outside the window or not completed leave the ledger as it is. */
  lemma {:induction false} OnlyCountedMatter(txns: seq<Transaction>, users: seq<Member>, rosters: seq<Roster>, start: int, end: int)
    ensures AllCredits(txns, users, rosters, start, end)
         == AllCredits(Filter(txns, t => Counted(t, start, end)), users, rosters, start, end)
  {
    var p := (t: Transaction) => Counted(t, start, end);
    if txns != [] {
      var init, t := txns[..|txns| - 1], txns[|txns| - 1];
      assert txns == init + [t];
      OnlyCountedMatter(init, users, rosters, start, end);
      FilterConcat(init, [t], p);
      AllCreditsSnoc(init, t, users, rosters, start, end);
      if p(t) {
        assert Filter([t], p) == [t];
        AllCreditsSnoc(Filter(init, p), t, users, rosters, start, end);
      } else {
        assert Filter([t], p) == [];
        assert Filter(txns, p) == Filter(init, p);
        assert TxnCredits(t, users, rosters, start, end) == [];
      }
    }
  }
}
