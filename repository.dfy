/**
 * The account repository: an in-memory store of accounts keyed by id, with
 * the CRUD operations the controller uses (`findById`, `save`) and the two
 * derived queries it declares (`findByIdAndOwner`, `findByOwner`), the
 * latter with its paging and sorting.
 */
module Repository {
  import opened Wrappers
  import opened Accounts
  import opened Sorting
  import opened Ids

  /** Every stored account sits under its own id, as a table row does under its primary key. */
  ghost predicate Keyed(m: map<int, BankAccount>)
  {
    forall k :: k in m ==> m[k].id == k
  }

  /** The accounts stored under the given ids, in ascending id order. */
  function Collect(m: map<int, BankAccount>, ids: set<int>): (r: seq<BankAccount>)
    requires forall k :: k in ids ==> k in m && m[k].id == k
    ensures CollectedFrom(m, ids, r)
    decreases ids
  {
    if ids == {} then
      []
    else
      var k := MinOf(ids);
      var rest := Collect(m, ids - {k});
      CollectStep(m, ids, k, rest);
      [m[k]] + rest
  }

  /** r lists the accounts of m under ids, each once, by ascending id. */
  ghost predicate CollectedFrom(m: map<int, BankAccount>, ids: set<int>, r: seq<BankAccount>)
  {
    && (forall i :: 0 <= i < |r| ==> r[i].id in ids && r[i].id in m && m[r[i].id] == r[i])
    && (forall k :: k in ids ==> k in m && m[k] in r)
    && (forall i, j :: 0 <= i < j < |r| ==> r[i].id < r[j].id)
    && |r| == |ids|
  }

  lemma CollectStep(m: map<int, BankAccount>, ids: set<int>, k: int, rest: seq<BankAccount>)
    requires forall j :: j in ids ==> j in m && m[j].id == j
    requires k in ids && forall j :: j in ids ==> k <= j
    requires CollectedFrom(m, ids - {k}, rest)
    ensures CollectedFrom(m, ids, [m[k]] + rest)
  {
    var r := [m[k]] + rest;
    forall i | 0 <= i < |r| ensures r[i].id in ids && r[i].id in m && m[r[i].id] == r[i] {
      if i > 0 { assert r[i] == rest[i - 1]; }
    }
    forall j | j in ids ensures m[j] in r {
      if j != k { assert j in ids - {k}; }
    }
    forall i, j | 0 <= i < j < |r| ensures r[i].id < r[j].id {
      assert r[j] == rest[j - 1];
      assert rest[j - 1].id in ids - {k};
      if i > 0 { assert r[i] == rest[i - 1]; }
    }
    RemoveOne(ids, k);
  }

  lemma RemoveOne(ids: set<int>, k: int)
    requires k in ids
    ensures |ids - {k}| == |ids| - 1
  {
    assert ids == (ids - {k}) + {k};
  }

  /** Sequences with strictly increasing ids hold no account twice. */
  lemma IncreasingIdsDistinct(s: seq<BankAccount>)
    requires forall i, j :: 0 <= i < j < |s| ==> s[i].id < s[j].id
    ensures Distinct(s)
  {
  }

  /**
   * w is the part of s that starts at position offset and holds at most size
   * accounts: empty when offset is past the end, shorter than size when s
   * ends first.
   */
  ghost predicate IsWindow(s: seq<BankAccount>, offset: nat, size: nat, w: seq<BankAccount>)
  {
    && |w| == (if offset >= |s| then 0 else if |s| - offset < size then |s| - offset else size)
    && forall i :: 0 <= i < |w| ==> w[i] == s[offset + i]
  }

  /** The accounts of s from position offset on, at most size of them. */
  function Window(s: seq<BankAccount>, offset: nat, size: nat): (w: seq<BankAccount>)
    ensures IsWindow(s, offset, size, w)
  {
    if offset >= |s| then []
    else if |s| - offset < size then s[offset..]
    else s[offset..offset + size]
  }

  lemma WindowSorted(s: seq<BankAccount>, offset: nat, size: nat, o: Order)
    requires SortedBy(s, o)
    ensures SortedBy(Window(s, offset, size), o)
  {
    var w := Window(s, offset, size);
    forall i, j | 0 <= i < j < |w| ensures InOrder(w[i], w[j], o) {
      assert w[i] == s[offset + i] && w[j] == s[offset + j];
    }
  }

  lemma WindowMembers(s: seq<BankAccount>, offset: nat, size: nat)
    ensures forall a :: a in Window(s, offset, size) ==> a in s
  {
    var w := Window(s, offset, size);
    forall a | a in w ensures a in s {
      var i :| 0 <= i < |w| && w[i] == a;
      assert s[offset + i] == a;
    }
  }

  /** The ids under which m stores accounts of the owner. */
  function OwnedIds(m: map<int, BankAccount>, owner: string): (ids: set<int>)
    ensures forall k :: k in ids <==> k in m && m[k].owner == owner
  {
    set k | k in m && m[k].owner == owner
  }

  /** The owner's accounts in m sorted by the order. */
  function Listing(m: map<int, BankAccount>, owner: string, order: Order): (listing: seq<BankAccount>)
    requires Keyed(m)
  {
    SortBy(Collect(m, OwnedIds(m, owner)), order)
  }

  lemma SameMembers(s: seq<BankAccount>, t: seq<BankAccount>)
    requires multiset(s) == multiset(t)
    ensures forall a :: a in s <==> a in t
  {
    forall a ensures a in s <==> a in t {
      assert a in s <==> a in multiset(s);
      assert a in t <==> a in multiset(t);
    }
  }

  /** In a sequence of distinct stored accounts no id repeats. */
  lemma StoredDistinctIds(m: map<int, BankAccount>, s: seq<BankAccount>)
    requires Distinct(s)
    requires forall a :: a in s ==> a.id in m && m[a.id] == a
    ensures forall i, j :: 0 <= i < j < |s| ==> s[i].id != s[j].id
  {
    forall i, j | 0 <= i < j < |s| ensures s[i].id != s[j].id {
      assert s[i] in s && s[j] in s;
    }
  }

  /**
   * listing holds every account of the owner stored in m, once, and nothing
   * else, sorted by the order; so it is as long as the owner's set of ids.
   */
  ghost predicate IsOwnerListing(m: map<int, BankAccount>, owner: string, order: Order, listing: seq<BankAccount>)
  {
    && (forall a :: a in listing ==> a.owner == owner && a.id in m && m[a.id] == a)
    && (forall k :: k in m && m[k].owner == owner ==> m[k] in listing)
    && (forall i, j :: 0 <= i < j < |listing| ==> listing[i].id != listing[j].id)
    && SortedBy(listing, order)
    && |listing| == |OwnedIds(m, owner)|
  }

  lemma ListingCorrect(m: map<int, BankAccount>, owner: string, order: Order)
    requires Keyed(m)
    ensures IsOwnerListing(m, owner, order, Listing(m, owner, order))
  {
    var ids := OwnedIds(m, owner);
    var collected := Collect(m, ids);
    var listing := SortBy(collected, order);
    IncreasingIdsDistinct(collected);
    SortByCorrect(collected, order);
    SameMembers(collected, listing);
    forall a | a in collected ensures a.owner == owner && a.id in m && m[a.id] == a {
      var i :| 0 <= i < |collected| && collected[i] == a;
    }
    StoredDistinctIds(m, listing);
    assert |multiset(collected)| == |multiset(listing)|;
  }

  /** Pages further along the listing start at least one whole page later. */
  lemma OffsetsApart(p: nat, q: nat, size: int)
    requires p < q && size >= 1
    ensures p * size + size <= q * size
  {
    var d := q - p;
    assert d >= 1;
    assert q * size == p * size + d * size;
    assert d * size >= size;
  }

  type PageSize = n: int | n >= 1 witness 1

  /** PageRequest.of(page, size, sort), whose arguments the framework has already brought into range. */
  datatype PageRequest = PageRequest(page: nat, size: PageSize, sort: Order)

  /** Position in the listing of the first account of the requested page. */
  function Offset(request: PageRequest): (offset: nat)
  {
    request.page * request.size
  }

  class BankAccountRepository {
    var accounts: map<int, BankAccount>

    ghost predicate Valid()
      reads this
    {
      Keyed(accounts)
    }

    /** A repository with no accounts. */
    constructor ()
      ensures Valid() && accounts == map[]
    {
      accounts := map[];
    }

    /** CrudRepository.findById: the stored account, or an empty Optional. */
    function FindById(id: int): (r: Option<BankAccount>)
      reads this
      ensures r.Some? <==> id in accounts
      ensures r.Some? ==> r.value == accounts[id]
    {
      if id in accounts then Some(accounts[id]) else None
    }

    /** CrudRepository.save: insert or replace the account stored under its id. */
    method Save(account: BankAccount) returns (saved: BankAccount)
      requires Valid()
      modifies this
      ensures Valid()
      ensures saved == account
      ensures accounts == old(accounts)[account.id := account]
      ensures FindById(account.id) == Some(account)
      ensures forall k :: k != account.id ==> FindById(k) == old(FindById(k))
    {
      accounts := accounts[account.id := account];
      saved := account;
    }

    /** findByIdAndOwner: the account with that id if that owner holds it, else null. */
    function FindByIdAndOwner(id: int, owner: string): (r: Option<BankAccount>)
      reads this
      ensures r.Some? <==> id in accounts && accounts[id].owner == owner
      ensures r.Some? ==> r.value == accounts[id]
    {
      match FindById(id)
      case Some(a) => if a.owner == owner then Some(a) else None
      case None => None
    }

    /**
     * All accounts of the owner, each exactly once, sorted by the order.
     * Accounts with equal keys come in ascending id order, a choice the
     * contract does not promise.
     */
    function OwnerListing(owner: string, order: Order): (listing: seq<BankAccount>)
      reads this
      requires Valid()
      ensures IsOwnerListing(accounts, owner, order, listing)
    {
      ListingCorrect(accounts, owner, order);
      Listing(accounts, owner, order)
    }

    /**
     * findByOwner(owner, request): page number `request.page` of the owner's
     * listing, `request.size` accounts to a page, the last page possibly
     * shorter and pages past the end empty.
     */
    function FindByOwner(owner: string, request: PageRequest): (page: seq<BankAccount>)
      reads this
      requires Valid()
      ensures IsWindow(OwnerListing(owner, request.sort), Offset(request), request.size, page)
      ensures forall a :: a in page ==> a.owner == owner && a.id in accounts && accounts[a.id] == a
      ensures SortedBy(page, request.sort)
    {
      var listing := OwnerListing(owner, request.sort);
      var offset := Offset(request);
      WindowSorted(listing, offset, request.size, request.sort);
      WindowMembers(listing, offset, request.size);
      Window(listing, offset, request.size)
    }
  }

  /** Windows at least a whole window apart share no account of a listing without repeated ids. */
  lemma WindowsDisjoint(s: seq<BankAccount>, size: nat, x0: nat, y0: nat, a: BankAccount)
    requires forall i, j :: 0 <= i < j < |s| ==> s[i].id != s[j].id
    requires x0 + size <= y0 || y0 + size <= x0
    requires a in Window(s, x0, size)
    ensures a !in Window(s, y0, size)
  {
    var wx, wy := Window(s, x0, size), Window(s, y0, size);
    var i :| 0 <= i < |wx| && wx[i] == a;
    forall j | 0 <= j < |wy| ensures wy[j] != a {
      assert wy[j] == s[y0 + j] && a == s[x0 + i];
    }
  }

  /** A first page with room for all of the owner's accounts is the whole listing. */
  lemma FirstPageComplete(repository: BankAccountRepository, owner: string, order: Order, size: PageSize)
    requires repository.Valid()
    requires |OwnedIds(repository.accounts, owner)| <= size
    ensures repository.FindByOwner(owner, PageRequest(0, size, order)) == repository.OwnerListing(owner, order)
  {
    var listing := repository.OwnerListing(owner, order);
    assert Offset(PageRequest(0, size, order)) == 0;
  }

  /** Two different pages of the same listing never hold the same account. */
  lemma PagesDisjoint(repository: BankAccountRepository, owner: string, order: Order,
                      size: PageSize, p: nat, q: nat, a: BankAccount)
    requires repository.Valid() && p != q
    requires a in repository.FindByOwner(owner, PageRequest(p, size, order))
    ensures a !in repository.FindByOwner(owner, PageRequest(q, size, order))
  {
    var listing := repository.OwnerListing(owner, order);
    var x0, y0 := Offset(PageRequest(p, size, order)), Offset(PageRequest(q, size, order));
    if p < q { OffsetsApart(p, q, size); } else { OffsetsApart(q, p, size); }
    assert repository.FindByOwner(owner, PageRequest(p, size, order)) == Window(listing, x0, size);
    assert repository.FindByOwner(owner, PageRequest(q, size, order)) == Window(listing, y0, size);
    WindowsDisjoint(listing, size, x0, y0, a);
  }
}
