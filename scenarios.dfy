/**
 * The controller's behaviour on the situations its integration tests set
 * up, derived from the controller's contracts. Every test runs against the
 * store as the application starts, so every scenario starts from Seeded().
 * Balances are in cents: 1000.00 is 100000.
 */
module Scenarios {
  import opened Wrappers
  import opened Accounts
  import opened Sorting
  import opened Repository
  import opened Controller
  import Text

  /**
   * A controller over a store holding the three accounts of user1 the tests
   * expect at start-up. The tests fix 1001 as a SAVINGS account with
   * 1000.00 and the balances 10.00 and 1500.00 of the other two; which of
   * 1002 and 1003 holds which, and their type, are chosen here.
   */
  method Seeded() returns (controller: BankAccountController)
    ensures fresh(controller.repository) && controller.repository.Valid()
    ensures controller.repository.accounts == map[
              1001 := BankAccount(1001, 100000, "SAVINGS", "user1"),
              1002 := BankAccount(1002, 1000, "SAVINGS", "user1"),
              1003 := BankAccount(1003, 150000, "SAVINGS", "user1")]
  {
    var repository := new BankAccountRepository();
    var saved := repository.Save(BankAccount(1001, 100000, "SAVINGS", "user1"));
    saved := repository.Save(BankAccount(1002, 1000, "SAVINGS", "user1"));
    saved := repository.Save(BankAccount(1003, 150000, "SAVINGS", "user1"));
    controller := new BankAccountController(repository);
  }

  /** The owner reads a seeded account; an unknown id and a stranger both get 404. */
  method ReadSeeded() returns (own: Response, unknown: Response, stranger: Response)
    ensures own == Ok(BankAccount(1001, 100000, "SAVINGS", "user1")) && StatusCode(own) == 200
    ensures unknown == NotFound && StatusCode(unknown) == 404
    ensures stranger == NotFound
  {
    var controller := Seeded();
    own := controller.FindById(1001, "user1");
    unknown := controller.FindById(1009, "user1");
    stranger := controller.FindById(1001, "user2");
  }

  /** The default first page holds the three accounts, cheapest first. */
  method ListSeeded() returns (resp: Response)
    ensures resp == OkList([BankAccount(1002, 1000, "SAVINGS", "user1"),
                            BankAccount(1001, 100000, "SAVINGS", "user1"),
                            BankAccount(1003, 150000, "SAVINGS", "user1")])
  {
    var controller := Seeded();
    resp := controller.FindAll(ResolvePageable(None, None, None), "user1");
    SeededListing(controller.repository);
    FirstPageComplete(controller.repository, "user1", DefaultOrder, 20);
  }

  /** The seeded store lists user1's accounts as 10.00, 1000.00, 1500.00. */
  lemma SeededListing(repository: BankAccountRepository)
    requires repository.Valid()
    requires repository.accounts == map[
              1001 := BankAccount(1001, 100000, "SAVINGS", "user1"),
              1002 := BankAccount(1002, 1000, "SAVINGS", "user1"),
              1003 := BankAccount(1003, 150000, "SAVINGS", "user1")]
    ensures |OwnedIds(repository.accounts, "user1")| == 3
    ensures repository.OwnerListing("user1", DefaultOrder) ==
              [BankAccount(1002, 1000, "SAVINGS", "user1"),
               BankAccount(1001, 100000, "SAVINGS", "user1"),
               BankAccount(1003, 150000, "SAVINGS", "user1")]
  {
    var m := repository.accounts;
    var a, b, c := m[1002], m[1001], m[1003];
    assert OwnedIds(m, "user1") == {1001, 1002, 1003};
    var listing := repository.OwnerListing("user1", DefaultOrder);
    forall x | x in listing ensures x == a || x == b || x == c {
      assert x.id in m && m[x.id] == x;
    }
    OnlySortingOfThree(listing, a, b, c);
  }

  /** Three accounts with distinct ids and strictly rising balances have one ascending-balance listing. */
  lemma OnlySortingOfThree(s: seq<BankAccount>, a: BankAccount, b: BankAccount, c: BankAccount)
    requires a.amount < b.amount < c.amount
    requires |s| == 3 && forall x :: x in s ==> x == a || x == b || x == c
    requires SortedBy(s, Order(Amount, Asc))
    requires forall i, j :: 0 <= i < j < |s| ==> s[i].id != s[j].id
    ensures s == [a, b, c]
  {
    assert s[0] in s && s[1] in s && s[2] in s;
    assert InOrder(s[0], s[1], Order(Amount, Asc)) && InOrder(s[1], s[2], Order(Amount, Asc));
  }

  /** A requested page size of zero is read as the default size, so the answer is the whole first page. */
  method ListWithZeroSize() returns (resp: Response)
    ensures resp == OkList([BankAccount(1002, 1000, "SAVINGS", "user1"),
                            BankAccount(1001, 100000, "SAVINGS", "user1"),
                            BankAccount(1003, 150000, "SAVINGS", "user1")])
  {
    var controller := Seeded();
    var pageable := ResolvePageable(None, Some(0), None);
    assert pageable == Pageable(0, DefaultPageSize, None);
    resp := controller.FindAll(pageable, "user1");
    SeededListing(controller.repository);
    FirstPageComplete(controller.repository, "user1", DefaultOrder, DefaultPageSize);
  }

  /**
   * Creating account 1001 for LMA answers 201 with a Location naming 1001
   * and replaces the seeded account: LMA now reads it, user1 no longer can.
   */
  method CreateThenRead() returns (created: Response, byNewOwner: Response, byOldOwner: Response)
    ensures created == Created("bankaccounts/1001") && StatusCode(created) == 201
    ensures byNewOwner == Ok(BankAccount(1001, 20000, "SAVINGS", "LMA"))
    ensures byOldOwner == NotFound
  {
    var controller := Seeded();
    created := controller.CreateBankAccount(BankAccount(1001, 20000, "SAVINGS", "LMA"));
    assert Text.IntToDecimal(1001) == "1001";
    byNewOwner := controller.FindById(1001, "LMA");
    byOldOwner := controller.FindById(1001, "user1");
  }

  /**
   * After 1001 is replaced by an account of 200.00, a deposit of 300.00
   * answers 200 with a balance of 500.00, although the deposit names 1002
   * as its target; 1002 is left as it was.
   */
  method DepositOnNewAccount() returns (resp: Response, other: Response)
    ensures resp == Ok(BankAccount(1001, 50000, "SAVINGS", "LMA")) && StatusCode(resp) == 200
    ensures other == Ok(BankAccount(1002, 1000, "SAVINGS", "user1"))
  {
    var controller := Seeded();
    var created := controller.CreateBankAccount(BankAccount(1001, 20000, "SAVINGS", "LMA"));
    resp := controller.PutDepositInBankAccount(1001, DepositRecord(1002, 30000, 0));
    other := controller.FindById(1002, "user1");
  }

  /** A deposit onto an id with no account escapes as an exception: a 500, not a 404. */
  method DepositOnMissingAccount() returns (resp: Response)
    ensures resp == Threw(NoSuchElement) && StatusCode(resp) == 500
  {
    var controller := Seeded();
    resp := controller.PutDepositInBankAccount(1009, DepositRecord(1009, 30000, 0));
  }

  /**
   * Withdrawing 150.00 after 1001 is replaced by an account of 500.00: a
   * stranger gets 404, the owner under any capitalisation gets the new
   * balance, and overdrawing what is left is a 400.
   */
  method WithdrawFromNewAccount() returns (stranger: Response, own: Response, shouted: Response, overdraft: Response)
    ensures stranger == NotFound
    ensures own == Ok(BankAccount(1001, 35000, "SAVINGS", "user1"))
    ensures shouted == Ok(BankAccount(1001, 20000, "SAVINGS", "user1"))
    ensures overdraft == BadRequest && StatusCode(overdraft) == 400
  {
    var controller := Seeded();
    var created := controller.CreateBankAccount(BankAccount(1001, 50000, "SAVINGS", "user1"));
    var withdrawal := WithdrawalRecord(1002, 15000, 0);
    CallerNames();
    stranger := controller.PutWithdrawalInBankAccount(1001, withdrawal, "user2");
    own := controller.PutWithdrawalInBankAccount(1001, withdrawal, "user1");
    shouted := controller.PutWithdrawalInBankAccount(1001, withdrawal, "USER1");
    overdraft := controller.PutWithdrawalInBankAccount(1001, WithdrawalRecord(1001, 20001, 0), "user1");
  }

  /** How the tests' caller names compare with the owner user1, ignoring case. */
  lemma CallerNames()
    ensures !Text.EqualsIgnoreCase("user1", "user2")
    ensures Text.EqualsIgnoreCase("user1", "user1")
    ensures Text.EqualsIgnoreCase("user1", "USER1")
  {
    Text.EqualsIgnoreCaseIffSameUpper("user1", "user2");
    assert Text.UpperAscii("user1")[4] != Text.UpperAscii("user2")[4];
    Text.EqualsIgnoreCaseEquivalence("user1", "user1", "user1");
    Text.EqualsIgnoreCaseIffSameUpper("user1", "USER1");
    assert Text.UpperAscii("user1") == Text.UpperAscii("USER1");
  }

  /** The transfer endpoint answers 400 however the accounts stand. */
  method TransferBetweenAccounts() returns (resp: Response)
    ensures resp == BadRequest && StatusCode(resp) == 400
  {
    var controller := Seeded();
    var source := controller.CreateBankAccount(BankAccount(1003, 20000, "SAVINGS", "LMA"));
    var target := controller.CreateBankAccount(BankAccount(1001, 70000, "SAVINGS", "LMA"));
    resp := controller.PutTransferenceInBankAccount(1003, TransferenceRecord(1001, 70000, 0));
  }

  /** The owner depositing and then withdrawing the same amount leaves the store as it was. */
  method DepositThenWithdraw(controller: BankAccountController, id: int, amount: int, principal: string)
    returns (deposited: Response, withdrawn: Response)
    requires controller.repository.Valid()
    requires id in controller.repository.accounts
    requires controller.repository.accounts[id].amount >= 0
    requires Text.EqualsIgnoreCase(controller.repository.accounts[id].owner, principal)
    modifies controller.repository
    ensures controller.repository.Valid()
    ensures deposited.Ok? && withdrawn.Ok?
    ensures withdrawn.account == old(controller.repository.accounts[id])
    ensures controller.repository.accounts == old(controller.repository.accounts)
  {
    deposited := controller.PutDepositInBankAccount(id, DepositRecord(id, amount, 0));
    withdrawn := controller.PutWithdrawalInBankAccount(id, WithdrawalRecord(id, amount, 0), principal);
  }
}
