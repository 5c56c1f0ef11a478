/**
 * The REST controller for /bankaccounts: read one account, list the
 * caller's accounts a page at a time, create an account, deposit, withdraw
 * and (not implemented) transfer. Each handler is a short read-modify-write
 * of one entry of the repository.
 */
module Controller {
  import opened Wrappers
  import opened Accounts
  import opened Sorting
  import opened Repository
  import Text

  /** An exception that escapes a handler; the framework turns it into a 500 answer. */
  datatype Fault =
    | NoSuchElement    // Optional.get() on an empty Optional

  /** What a handler answers: a status and, where there is one, a body or a Location header. */
  datatype Response =
    | Ok(account: BankAccount)
    | OkList(accounts: seq<BankAccount>)
    | Created(location: string)
    | NotFound
    | BadRequest
    | Threw(fault: Fault)

  function StatusCode(r: Response): (code: int)
  {
    match r
    case Ok(_) => 200
    case OkList(_) => 200
    case Created(_) => 201
    case NotFound => 404
    case BadRequest => 400
    case Threw(_) => 500
  }

  /** The page size the framework uses when a request gives none, or one below one. */
  const DefaultPageSize := 20

  /** The largest page size the framework passes on. */
  const MaxPageSize := 2000

  /** The paging and sorting of a list request, as the controller receives it. */
  datatype Pageable = Pageable(page: nat, size: PageSize, sort: Option<Order>)

  /**
   * How the framework's Pageable argument resolver, with its default
   * settings, reads the page and size parameters of a list request (None for
   * an absent parameter): a negative page is read as page 0, an absent or
   * non-positive size as the default size, a size above the maximum as the
   * maximum. So the controller never sees a page or size PageRequest.of would
   * refuse.
   */
  function ResolvePageable(page: Option<int>, size: Option<int>, sort: Option<Order>): (p: Pageable)
    ensures p.sort == sort
    ensures p.page == (if page.Some? && page.value > 0 then page.value else 0)
    ensures 1 <= p.size <= MaxPageSize
    ensures size.Some? && 1 <= size.value <= MaxPageSize ==> p.size == size.value
    ensures size.Some? && size.value > MaxPageSize ==> p.size == MaxPageSize
    ensures size.None? || size.value < 1 ==> p.size == DefaultPageSize
  {
    var resolvedPage := match page
      case Some(n) => if n < 0 then 0 else n
      case None => 0;
    var resolvedSize := match size
      case Some(n) => if n < 1 then DefaultPageSize else if n > MaxPageSize then MaxPageSize else n
      case None => DefaultPageSize;
    Pageable(resolvedPage, resolvedSize, sort)
  }

  /** A request that already names a valid page and size is passed on unchanged. */
  lemma ResolveKeepsValid(p: Pageable)
    requires p.size <= MaxPageSize
    ensures ResolvePageable(Some(p.page), Some(p.size), p.sort) == p
  {
  }

  /** The order a listing takes when the caller names none: ascending balance. */
  const DefaultOrder := Order(Amount, Asc)

  /** Pageable.getSortOr: the caller's order if there is one, else the default. */
  function SortOr(sort: Option<Order>, default: Order): (o: Order)
  {
    match sort
    case Some(o) => o
    case None => default
  }

  const LocationPrefix := "bankaccounts/"

  /** The Location of a created account: the path template bankaccounts/{id} expanded with its id. */
  function Location(id: int): (loc: string)
  {
    LocationPrefix + Text.IntToDecimal(id)
  }

  /**
   * The Location names the created account: it is the prefix followed by a
   * path segment that converts back to the id, as the {requestedId} path
   * variable of a later read does.
   */
  lemma LocationRoundTrip(id: int)
    ensures |Location(id)| > |LocationPrefix|
    ensures Location(id)[..|LocationPrefix|] == LocationPrefix
    ensures Text.ParseLong(Location(id)[|LocationPrefix|..]) == Some(id)
  {
    var digits := Text.IntToDecimal(id);
    assert Location(id)[|LocationPrefix|..] == digits;
    Text.IntToDecimalRoundTrip(id);
  }

  /** Different ids get different Locations. */
  lemma LocationInjective(a: int, b: int)
    requires Location(a) == Location(b)
    ensures a == b
  {
    LocationRoundTrip(a);
    LocationRoundTrip(b);
  }

  /** after agrees with before on every id other than id. */
  ghost predicate OnlyEntryChanged(before: map<int, BankAccount>, after: map<int, BankAccount>, id: int)
  {
    forall k :: k != id ==> (k in before <==> k in after) && (k in before ==> before[k] == after[k])
  }

  class BankAccountController {
    const repository: BankAccountRepository

    constructor (repository: BankAccountRepository)
      ensures this.repository == repository
    {
      this.repository := repository;
    }

    /** The principal's account with that id, if there is one. */
    function FindBankAccount(requestedId: int, principal: string): (r: Option<BankAccount>)
      reads repository
      ensures r.Some? <==> requestedId in repository.accounts && repository.accounts[requestedId].owner == principal
      ensures r.Some? ==> r.value == repository.accounts[requestedId] && r.value.owner == principal
    {
      repository.FindByIdAndOwner(requestedId, principal)
    }

    /** GET /bankaccounts/{requestedId}: the account if the principal owns it, otherwise 404 with no body. */
    method FindById(requestedId: int, principal: string) returns (resp: Response)
      ensures requestedId in repository.accounts && repository.accounts[requestedId].owner == principal ==>
                resp == Ok(repository.accounts[requestedId])
      ensures !(requestedId in repository.accounts && repository.accounts[requestedId].owner == principal) ==>
                resp == NotFound
    {
      var account := FindBankAccount(requestedId, principal);
      if account.Some? {
        resp := Ok(account.value);
      } else {
        resp := NotFound;
      }
    }

    /**
     * GET /bankaccounts?page&size&sort: one page of the principal's accounts,
     * by ascending balance unless the caller gives an order.
     */
    method FindAll(pageable: Pageable, principal: string) returns (resp: Response)
      requires repository.Valid()
      ensures resp == OkList(repository.FindByOwner(principal,
                PageRequest(pageable.page, pageable.size, SortOr(pageable.sort, DefaultOrder))))
      ensures forall a :: a in resp.accounts ==>
                a.owner == principal && a.id in repository.accounts && repository.accounts[a.id] == a
      ensures pageable.sort.None? ==> SortedBy(resp.accounts, Order(Amount, Asc))
      ensures pageable.sort.Some? ==> SortedBy(resp.accounts, pageable.sort.value)
    {
      var request := PageRequest(pageable.page, pageable.size, SortOr(pageable.sort, DefaultOrder));
      resp := OkList(repository.FindByOwner(principal, request));
    }

    /** POST /bankaccounts: stores the account under its id, replacing any account there, and answers 201. */
    method CreateBankAccount(newAccount: BankAccount) returns (resp: Response)
      requires repository.Valid()
      modifies repository
      ensures repository.Valid()
      ensures resp == Created(Location(newAccount.id))
      ensures repository.accounts == old(repository.accounts)[newAccount.id := newAccount]
      ensures OnlyEntryChanged(old(repository.accounts), repository.accounts, newAccount.id)
    {
      var saved := repository.Save(newAccount);
      resp := Created(Location(saved.id));
    }

    /**
     * PATCH /bankaccounts/{requestedId}/deposit: adds the deposit to the
     * balance of the account under requestedId, whoever the caller is. A
     * missing account makes Optional.get() throw before the null check, so
     * the 404 branch is never taken.
     */
    method PutDepositInBankAccount(requestedId: int, deposit: DepositRecord) returns (resp: Response)
      requires repository.Valid()
      modifies repository
      ensures repository.Valid()
      ensures requestedId !in old(repository.accounts) ==>
                resp == Threw(NoSuchElement) && repository.accounts == old(repository.accounts)
      ensures requestedId in old(repository.accounts) ==>
                var before := old(repository.accounts)[requestedId];
                var after := BankAccount(requestedId, before.amount + deposit.amount, before.accountType, before.owner);
                resp == Ok(after) && repository.accounts == old(repository.accounts)[requestedId := after]
      ensures resp != NotFound
      ensures repository.accounts.Keys == old(repository.accounts).Keys
      ensures OnlyEntryChanged(old(repository.accounts), repository.accounts, requestedId)
    {
      var opt := repository.FindById(requestedId);
      if opt.None? {
        resp := Threw(NoSuchElement);
        return;
      }
      var initial := opt.value;
      var after := BankAccount(requestedId, initial.amount + deposit.amount, initial.accountType, initial.owner);
      var saved := repository.Save(after);
      resp := Ok(after);
    }

    /**
     * PATCH /bankaccounts/{requestedId}/withdrawal: only an owner (compared
     * ignoring case) may withdraw, and no more than the balance. A stranger
     * gets 404, an overdraft 400; a missing account makes Optional.get()
     * throw.
     */
    method PutWithdrawalInBankAccount(requestedId: int, withdrawal: WithdrawalRecord, principal: string)
      returns (resp: Response)
      requires repository.Valid()
      modifies repository
      ensures repository.Valid()
      ensures requestedId !in old(repository.accounts) ==>
                resp == Threw(NoSuchElement) && repository.accounts == old(repository.accounts)
      ensures requestedId in old(repository.accounts) && !Text.EqualsIgnoreCase(old(repository.accounts)[requestedId].owner, principal) ==>
                resp == NotFound && repository.accounts == old(repository.accounts)
      ensures requestedId in old(repository.accounts) && Text.EqualsIgnoreCase(old(repository.accounts)[requestedId].owner, principal) ==>
                var before := old(repository.accounts)[requestedId];
                if before.amount < withdrawal.amount then
                  resp == BadRequest && repository.accounts == old(repository.accounts)
                else
                  var after := BankAccount(requestedId, before.amount - withdrawal.amount, before.accountType, before.owner);
                  resp == Ok(after) && after.amount >= 0 &&
                  repository.accounts == old(repository.accounts)[requestedId := after]
      ensures repository.accounts.Keys == old(repository.accounts).Keys
      ensures OnlyEntryChanged(old(repository.accounts), repository.accounts, requestedId)
    {
      var opt := repository.FindById(requestedId);
      if opt.None? {
        resp := Threw(NoSuchElement);
        return;
      }
      var initial := opt.value;
      if !Text.EqualsIgnoreCase(initial.owner, principal) {
        resp := NotFound;
      } else if initial.amount < withdrawal.amount {
        resp := BadRequest;
      } else {
        var after := BankAccount(requestedId, initial.amount - withdrawal.amount, initial.accountType, initial.owner);
        var saved := repository.Save(after);
        resp := Ok(after);
      }
    }

    /** PATCH /bankaccounts/{requestedId}/tranference: not implemented; always 400 and nothing changes. */
    method PutTransferenceInBankAccount(requestedId: int, transference: TransferenceRecord) returns (resp: Response)
      ensures resp == BadRequest
    {
      resp := BadRequest;
    }
  }
}
