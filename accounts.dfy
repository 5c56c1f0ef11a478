/**
 * The bank account record and the request bodies of the ledger endpoints.
 * Money is an exact integer number of the currency's smallest unit; the
 * service itself stores it as a Java Double.
 */
module Accounts {
  /** The persisted record: id (the key), balance, account type and owner's user name. */
  datatype BankAccount = BankAccount(id: int, amount: int, accountType: string, owner: string)

  /** Body of a deposit request; `date` is the request's timestamp, which nothing reads. */
  datatype DepositRecord = DepositRecord(targetId: int, amount: int, date: int)

  /** Body of a withdrawal request, same shape as a deposit. */
  datatype WithdrawalRecord = WithdrawalRecord(targetId: int, amount: int, date: int)

  /** Body of a transfer request. */
  datatype TransferenceRecord = TransferenceRecord(destinationId: int, amount: int, date: int)
}
