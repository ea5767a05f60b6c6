/** Subscription rows and the one rule that says whether a row entitles its owner now. */
module Entitlement {
  import opened Common

  datatype Status = Active | Canceled | Expired | Trial

  datatype BillingCycle = Monthly | Yearly

  /** The two texts of one instant: as the database column reads back, and as `toISOString` writes it. */
  datatype Spelling = Column | Iso

  /**
   * A stored timestamp column as the parser classifies it: null or empty, text that is no
   * instant, or an instant in milliseconds in one of its spellings.
   */
  datatype StoredInstant = Missing | Unreadable | At(ms: int, spelling: Spelling)

  /** An instant that has been written to a column. */
  function Stamped(ms: int): StoredInstant {
    At(ms, Column)
  }

  datatype SubscriptionRow = SubscriptionRow(
    id: int,
    userId: int,
    restaurantId: int,
    planId: string,
    status: Status,
    billingCycle: BillingCycle,
    currentPeriodStart: int,
    currentPeriodEnd: StoredInstant,
    trialEndsAt: StoredInstant)

  datatype Reason =
    | Entitled
    | NoSubscription
    | StatusNotEntitled
    | PeriodExpired
    | MissingTrialEnd
    | MissingPeriodEnd

  datatype Verdict = Verdict(isEntitled: bool, reason: Reason)

  function ParseStoredUtcInstant(stored: StoredInstant): Option<int> {
    if stored.At? then Some(stored.ms) else None
  }

  /** The verdict for a row whose governing end column is `stored`. */
  function ResolvePeriod(stored: StoredInstant, now: int, whenMissing: Reason): Verdict {
    match ParseStoredUtcInstant(stored)
    case None => Verdict(false, whenMissing)
    case Some(end) => if now >= end then Verdict(false, PeriodExpired) else Verdict(true, Entitled)
  }

  function ResolveSubscriptionEntitlement(subscription: Option<SubscriptionRow>, now: int): Verdict {
    match subscription
    case None => Verdict(false, NoSubscription)
    case Some(row) =>
      match row.status
      case Canceled => Verdict(false, StatusNotEntitled)
      case Expired => Verdict(false, StatusNotEntitled)
      case Trial => ResolvePeriod(row.trialEndsAt, now, MissingTrialEnd)
      case Active => ResolvePeriod(row.currentPeriodEnd, now, MissingPeriodEnd)
  }

  predicate EntitledNow(row: SubscriptionRow, now: int) {
    ResolveSubscriptionEntitlement(Some(row), now).isEntitled
  }

  predicate UserHasEntitlement(rows: seq<SubscriptionRow>, now: int) {
    exists i :: 0 <= i < |rows| && EntitledNow(rows[i], now)
  }

  /** The two statuses whose period can still run. */
  predicate IsLive(row: SubscriptionRow) {
    row.status == Trial || row.status == Active
  }

  /** The instant a row is ranked by: the trial end of a trial, the period end of anything else. */
  function PeriodEnd(row: SubscriptionRow): Option<int> {
    if row.status == Trial then ParseStoredUtcInstant(row.trialEndsAt)
    else ParseStoredUtcInstant(row.currentPeriodEnd)
  }

  /** Entitlement is exactly a live status with a readable end still ahead. */
  lemma EntitledMeansLiveAndUnexpired(row: SubscriptionRow, now: int)
    ensures EntitledNow(row, now) <==> IsLive(row) && PeriodEnd(row).Some? && now < PeriodEnd(row).value
  {
  }

  /** Time alone never entitles anyone. */
  lemma EntitlementOnlyLapses(row: SubscriptionRow, now: int, later: int)
    requires now <= later && EntitledNow(row, later)
    ensures EntitledNow(row, now)
  {
  }

  /** The verdict names its reason: why a row does not entitle, or that it does. */
  lemma VerdictNamesReason(subscription: Option<SubscriptionRow>, now: int)
    ensures var reason := ResolveSubscriptionEntitlement(subscription, now).reason;
            && (reason == NoSubscription <==> subscription.None?)
            && (subscription.Some? ==>
                  var row := subscription.value;
                  && (reason == Entitled <==> EntitledNow(row, now))
                  && (reason == StatusNotEntitled <==> row.status == Canceled || row.status == Expired)
                  && (reason == MissingTrialEnd <==> row.status == Trial && !row.trialEndsAt.At?)
                  && (reason == MissingPeriodEnd <==> row.status == Active && !row.currentPeriodEnd.At?)
                  && (reason == PeriodExpired <==>
                        || (row.status == Trial && row.trialEndsAt.At? && row.trialEndsAt.ms <= now)
                        || (row.status == Active && row.currentPeriodEnd.At? && row.currentPeriodEnd.ms <= now)))
  {
  }
}
