/** The response shapes of the read-side queries, with amounts in cents. */
module Schemas {

  datatype BalanceResponse = BalanceResponse(userId: int, balanceCents: int, currency: string)

  datatype SummaryStats = SummaryStats(
    totalUsers: nat,
    totalValueCents: int,
    totalTransfers: nat,
    totalWithdrawals: nat,
    currency: string)
}
