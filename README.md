# Bank account controller

A model of the REST controller of a small bank-account service. The controller serves `/bankaccounts`:

- read one account;
- list the caller's accounts a page at a time;
- create an account;
- deposit into or withdraw from an account;
- transfer, which is only a stub.

Every handler runs against a repository that stores accounts by id.

The model has seven modules:

- `Accounts` holds the `BankAccount` record (`id`, `amount`, `accountType`, `owner`) and the three request records: deposit, withdrawal and transference.
- `Repository` is the store. Class `BankAccountRepository` holds a `map<int, BankAccount>` keyed by id. Its members are:
  - `findById` and `save`, an insert-or-replace;
  - the derived query `findByIdAndOwner`;
  - the paged, sorted `findByOwner`. Its listing of the owner's accounts is built by collecting them in ascending id order and sorting with a stable insertion sort. A page is then a window of that listing.
- `Controller` is class `BankAccountController`, one method per endpoint. It also holds the response datatype, the `Location` of a created account, and the `Pageable` a list request arrives as. `ResolvePageable` is how the framework reads the request's page and size parameters into that `Pageable`; the default order is ascending balance.
- `Sorting` is the order a page comes in: one property and a direction.
- `Text` holds `String.equalsIgnoreCase` and `Long.toString`. It also holds two stand-ins: `LexLeq` for the order the database sorts a text property in, taken as lexicographic on characters, and `ParseLong` for the conversion of the `{requestedId}` path segment back to an id.
- `Ids` gives the least element of a set of ids.
- `Scenarios` plays out the integration tests' situations against the controller.

Outcomes are a `Response`:

- `Ok`, `OkList`, `Created`, `NotFound`, `BadRequest`;
- `Threw(fault)` for an exception that escapes a handler, which the framework answers with 500.

Amounts are whole cents held in an `int`. Ids are unbounded integers.

Where the code and the written design of the service disagree, the model follows the code:

- Creating an account with an id already in use replaces that account.
- Deposits and withdrawals do not check the sign of the amount. A deposit makes no owner check.
- Deposit and withdrawal on a missing id call `Optional.get()` before the null check. They fail with an exception (`Threw(NoSuchElement)`), not a 404, and the null-check branches can never be taken for a missing account.
- The transfer endpoint always answers 400. The integration test for it (springboot-code-challenge1/src/test/java/com/capmation/challenge1/SpringbootCodeChallenge1ApplicationTests.java:158-196) expects 200.
- `findAll` never fails on its paging parameters. The framework reads a negative page as page 0 and a size below one as the default size 20 before the controller sees them, so `PageRequest.of` is never given values it refuses.

## Model

| member | source | states |
|---|---|---|
| Controller.BankAccountController.constructor | springboot-code-challenge1/src/main/java/com/capmation/challenge1/BankAccountController.java:29-31 | the controller works on the repository it is given |
| Controller.BankAccountController.FindBankAccount | springboot-code-challenge1/src/main/java/com/capmation/challenge1/BankAccountController.java:141-143 | an account is found exactly when one is stored under the id and its owner is the principal; it is that stored account |
| Controller.BankAccountController.FindById | springboot-code-challenge1/src/main/java/com/capmation/challenge1/BankAccountController.java:33-41 | answers Ok with the stored account exactly when the id exists and the principal owns it, otherwise NotFound |
| Controller.BankAccountController.FindAll | springboot-code-challenge1/src/main/java/com/capmation/challenge1/BankAccountController.java:43-52 | the answer is always 200 with the requested page of the owner's listing, under the caller's order or, when none is given, ascending balance; every listed account is a stored account of the principal, and the page is sorted by that order |
| Controller.ResolvePageable | springboot-code-challenge1/src/main/java/com/capmation/challenge1/BankAccountController.java:44 | the page the controller receives is the requested one, or 0 when that is absent or negative; its size is between 1 and 2000: the requested size when it lies in that range, 2000 above it, and the default 20 when absent or below one |
| Controller.ResolveKeepsValid | springboot-code-challenge1/src/main/java/com/capmation/challenge1/BankAccountController.java:44 | a request naming a valid page and size reaches the controller unchanged |
| Controller.BankAccountController.CreateBankAccount | springboot-code-challenge1/src/main/java/com/capmation/challenge1/BankAccountController.java:54-64 | the account is stored under its id, replacing any account there, every other entry is left as it was, and the answer is Created at bankaccounts/{id} |
| Controller.BankAccountController.PutDepositInBankAccount | springboot-code-challenge1/src/main/java/com/capmation/challenge1/BankAccountController.java:66-92 | a missing id throws NoSuchElement and changes nothing; otherwise the account under the path id gets balance plus deposit, keeps its type and owner, is stored and returned; the deposit's target id plays no part; the answer is never NotFound, no id is added or removed and no other entry changes |
| Controller.BankAccountController.PutWithdrawalInBankAccount | springboot-code-challenge1/src/main/java/com/capmation/challenge1/BankAccountController.java:94-125 | a missing id throws; a caller whose name differs from the owner's ignoring case gets NotFound; a withdrawal above the balance gets BadRequest; in those three cases the store is unchanged; otherwise the new balance is balance minus withdrawal, which is at least zero, and only that entry changes |
| Controller.BankAccountController.PutTransferenceInBankAccount | springboot-code-challenge1/src/main/java/com/capmation/challenge1/BankAccountController.java:127-139 | always BadRequest; it changes nothing, since it may modify nothing |
| Controller.LocationRoundTrip | springboot-code-challenge1/src/main/java/com/capmation/challenge1/BankAccountController.java:58-61 | the Location is bankaccounts/ followed by a segment that parses back to the id |
| Controller.LocationInjective | springboot-code-challenge1/src/main/java/com/capmation/challenge1/BankAccountController.java:58-61 | different ids get different Locations |
| Repository.BankAccountRepository.constructor | challenge/springboot-code-challenge1/src/main/java/com/capmation/challenge1/BankAccountRepository.java:8 | a new repository is empty |
| Repository.BankAccountRepository.Save | challenge/springboot-code-challenge1/src/main/java/com/capmation/challenge1/BankAccountRepository.java:8 | the account is stored under its id, replacing what was there, and returned: afterwards findById of its id finds it, and findById of every other id finds what it found before; every account stays under its own id |
| Repository.BankAccountRepository.FindByIdAndOwner | challenge/springboot-code-challenge1/src/main/java/com/capmation/challenge1/BankAccountRepository.java:9 | Some exactly when an account with that id is stored and has that owner, and then that account |
| Repository.BankAccountRepository.OwnerListing | challenge/springboot-code-challenge1/src/main/java/com/capmation/challenge1/BankAccountRepository.java:10 | every stored account of the owner appears exactly once and nothing else does; the listing is sorted by the order and is as long as the owner's set of ids |
| Repository.BankAccountRepository.FindByOwner | challenge/springboot-code-challenge1/src/main/java/com/capmation/challenge1/BankAccountRepository.java:10 | page p of size n is the part of the owner's listing from position p*n, at most n accounts, and empty past the end; its accounts are stored accounts of the owner, in the requested order |
| Repository.Collect | challenge/springboot-code-challenge1/src/main/java/com/capmation/challenge1/BankAccountRepository.java:10 | the accounts under a set of ids, each once, by strictly ascending id, as many as there are ids |
| Repository.Window | challenge/springboot-code-challenge1/src/main/java/com/capmation/challenge1/BankAccountRepository.java:10 | the window's length is bounded by the size and by what is left after the offset, and its i-th account is the listing's (offset+i)-th |
| Repository.ListingCorrect | challenge/springboot-code-challenge1/src/main/java/com/capmation/challenge1/BankAccountRepository.java:10 | the owner's listing is sound, complete, free of repeated ids, sorted, and as long as the owner's set of ids |
| Repository.FirstPageComplete | springboot-code-challenge1/src/main/java/com/capmation/challenge1/BankAccountController.java:44-51 | when all of the owner's accounts fit on one page, page 0 is the whole listing |
| Repository.PagesDisjoint | springboot-code-challenge1/src/main/java/com/capmation/challenge1/BankAccountController.java:44-51 | two different pages of the same size and order never share an account |
| Sorting.InOrderTotal | springboot-code-challenge1/src/main/java/com/capmation/challenge1/BankAccountController.java:49 | any two accounts are comparable under an order |
| Sorting.InOrderTransitive | springboot-code-challenge1/src/main/java/com/capmation/challenge1/BankAccountController.java:49 | the order is transitive |
| Sorting.SortByCorrect | challenge/springboot-code-challenge1/src/main/java/com/capmation/challenge1/BankAccountRepository.java:10 | sorting yields a sorted permutation of its input and keeps distinct accounts distinct |
| Text.EqualsIgnoreCaseIffSameUpper | springboot-code-challenge1/src/main/java/com/capmation/challenge1/BankAccountController.java:108 | two names are equal ignoring case exactly when their upper-case forms are equal |
| Text.EqualsIgnoreCaseEquivalence | springboot-code-challenge1/src/main/java/com/capmation/challenge1/BankAccountController.java:108 | equality ignoring case is reflexive, symmetric and transitive |
| Text.LexLeqTotal | springboot-code-challenge1/src/main/java/com/capmation/challenge1/BankAccountController.java:49 | the lexicographic order on characters that stands in for the database sort of a text property orders any two strings |
| Text.LexLeqTransitive | springboot-code-challenge1/src/main/java/com/capmation/challenge1/BankAccountController.java:49 | that order is transitive |
| Text.LexLeqAntisymmetric | springboot-code-challenge1/src/main/java/com/capmation/challenge1/BankAccountController.java:49 | strings each at most the other are equal |
| Text.NatToDecimal | springboot-code-challenge1/src/main/java/com/capmation/challenge1/BankAccountController.java:60 | Long.toString of a non-negative number is a non-empty string of digits without a leading zero |
| Text.IntToDecimalRoundTrip | springboot-code-challenge1/src/main/java/com/capmation/challenge1/BankAccountController.java:60 | converting the decimal form of an id back, as a path segment is, gives the id |
| Scenarios.Seeded | springboot-code-challenge1/src/test/java/com/capmation/challenge1/SpringbootCodeChallenge1ApplicationTests.java:32-80 | a store holding user1's three accounts 1001, 1002 and 1003 with 1000.00, 10.00 and 1500.00 |
| Scenarios.ReadSeeded | springboot-code-challenge1/src/test/java/com/capmation/challenge1/SpringbootCodeChallenge1ApplicationTests.java:32-62 | the owner reads account 1001 with 1000.00; an unknown id 1009 and a different caller get 404 |
| Scenarios.ListSeeded | springboot-code-challenge1/src/test/java/com/capmation/challenge1/SpringbootCodeChallenge1ApplicationTests.java:64-80 | listing with no paging parameters gives exactly the three accounts, cheapest first |
| Scenarios.ListWithZeroSize | springboot-code-challenge1/src/main/java/com/capmation/challenge1/BankAccountController.java:44-51 | a requested size of 0 is read as the default size, so the answer is the same three accounts |
| Scenarios.SeededListing | springboot-code-challenge1/src/test/java/com/capmation/challenge1/SpringbootCodeChallenge1ApplicationTests.java:64-80 | the seeded store's listing for user1 is 1002, 1001, 1003 |
| Scenarios.OnlySortingOfThree | springboot-code-challenge1/src/test/java/com/capmation/challenge1/SpringbootCodeChallenge1ApplicationTests.java:64-80 | three distinct accounts with rising balances have only one ascending-balance listing |
| Scenarios.CreateThenRead | springboot-code-challenge1/src/test/java/com/capmation/challenge1/SpringbootCodeChallenge1ApplicationTests.java:82-99 | creating 1001 for LMA answers 201 at bankaccounts/1001 and replaces the seeded 1001: LMA reads the new account and user1 gets 404 |
| Scenarios.DepositOnNewAccount | springboot-code-challenge1/src/test/java/com/capmation/challenge1/SpringbootCodeChallenge1ApplicationTests.java:101-128 | after 1001 is replaced by 200.00, a deposit of 300.00 gives 500.00 although the deposit names target 1002, and 1002 is unchanged |
| Scenarios.DepositOnMissingAccount | springboot-code-challenge1/src/main/java/com/capmation/challenge1/BankAccountController.java:77-81 | a deposit onto an unknown id is a 500, not a 404 |
| Scenarios.WithdrawFromNewAccount | springboot-code-challenge1/src/test/java/com/capmation/challenge1/SpringbootCodeChallenge1ApplicationTests.java:130-156 | after 1001 is replaced by 500.00, withdrawing 150.00 gives 350.00; another caller gets 404; USER1 may withdraw from user1's account; an overdraft is a 400 |
| Scenarios.CallerNames | springboot-code-challenge1/src/main/java/com/capmation/challenge1/BankAccountController.java:108 | user1 matches user1 and USER1 but not user2, ignoring case |
| Scenarios.TransferBetweenAccounts | springboot-code-challenge1/src/test/java/com/capmation/challenge1/SpringbootCodeChallenge1ApplicationTests.java:158-196 | the transfer of the test is answered 400 |
| Scenarios.DepositThenWithdraw | springboot-code-challenge1/src/main/java/com/capmation/challenge1/BankAccountController.java:66-125 | an owner depositing then withdrawing the same amount from an account that is not overdrawn leaves the store as it was |

## Left out

- HTTP and Spring MVC plumbing are not modelled: annotations, request binding, `ResponseEntity`, and `UriComponentsBuilder` beyond the path `bankaccounts/{id}`. The Location is the path relative to the request's base URI.
- Authentication and roles are not modelled; the principal is a parameter. The security configuration makes the role rules inert.
- Amounts are exact cents, not Java `Double`; rounding is not modelled.
- Ids and balances are unbounded integers; `Long` overflow is not modelled.
- A null owner, amount or principal, and the `NullPointerException` it would cause, are not modelled.
- Spring Data JDBC's save semantics are reduced to insert-or-replace by id. The generated id for a null id, and the failure on updating a row that does not exist, are not modelled.
- Database collation is not modelled: text sorts compare characters by code point. That differs from a UTF-16 comparison for characters above U+FFFF. Sorts on more than one property and an unknown sort property are not modelled.
- The text of the page and size parameters is taken as already parsed; an unparseable parameter is not modelled.
- Repository.BankAccountRepository.OwnerListing: accounts with equal sort keys are listed in ascending id order. The contract does not promise that order, because the database does not.
- Text.EqualsIgnoreCaseIffSameUpper: case is folded for ASCII letters only; Java's folding of other Unicode letters is not modelled.
- `findByIdAndOwner` compares the owner exactly, as the derived query's equality does in the string's own terms.
- Concurrency and transactions are not modelled; the source has neither.
- No transfer semantics are modelled, because the source has none.
- The JSON serialisation tests are not part of this model: they exercise Jackson.
- The test helper that enables HTTP PATCH by reflection is not part of this model.
- The seeded start-up data is not part of this model. Its three accounts come from what the integration tests expect: ids 1001, 1002 and 1003, all of user1, with balances 1000.00, 10.00 and 1500.00. The tests fix the first of these as a SAVINGS account with 1000.00. Which of 1002 and 1003 holds 10.00, and their account type, are assumed.
- The DepositRecord, WithdrawalRecord and TransferenceRecord source files are not part of this model. Their fields follow the tests' constructors, and the date is an integer.
