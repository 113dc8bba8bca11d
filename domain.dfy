/** The application's records and enumerations, and the text each
    enumeration value is stored as. Amounts of money and pricing factors
    are exact `real`s; quantities and stock are integers. */
module Domain {
  import opened Wrappers

  datatype RentalMode = Daily | Weekly | Fortnightly | Monthly
  datatype DeliveryMode = Pickup | Delivery
  datatype CurrencyCode = BRL | USD | EUR
  datatype ReminderOption = NoReminder | OneHour | OneDay
  datatype RentalStatus = InProgress | Completed | Canceled | Quote

  function ModeName(m: RentalMode): string {
    match m
    case Daily => "daily"
    case Weekly => "weekly"
    case Fortnightly => "fortnightly"
    case Monthly => "monthly"
  }

  function DeliveryName(d: DeliveryMode): string {
    match d
    case Pickup => "pickup"
    case Delivery => "delivery"
  }

  function CurrencyName(c: CurrencyCode): string {
    match c
    case BRL => "BRL"
    case USD => "USD"
    case EUR => "EUR"
  }

  function ReminderName(r: ReminderOption): string {
    match r
    case NoReminder => "none"
    case OneHour => "1h"
    case OneDay => "1d"
  }

  function StatusName(s: RentalStatus): string {
    match s
    case InProgress => "in_progress"
    case Completed => "completed"
    case Canceled => "canceled"
    case Quote => "quote"
  }

  datatype PricingRules = PricingRules(weeklyFactor: real, fortnightlyFactor: real, monthlyFactor: real)

  datatype AppSettings = AppSettings(
    pricingRules: PricingRules,
    currency: CurrencyCode,
    companyName: string,
    companyDocument: string,
    companyLogoUri: string,
    rentalStartReminder: ReminderOption,
    rentalEndReminder: ReminderOption)

  datatype Client = Client(id: int, name: string)

  datatype Equipment = Equipment(
    id: int,
    name: string,
    category: Option<string>,
    rentalMode: RentalMode,
    dailyRate: real,
    equipmentValue: real,
    stock: int,
    notes: Option<string>)

  /** A line of a rental as the form and the services exchange it. */
  datatype RentalDraftItem = RentalDraftItem(
    equipmentId: int, equipmentName: string, quantity: int, unitPrice: real)

  /** What the form hands to create and update; None is an absent field. */
  datatype RentalCreateInput = RentalCreateInput(
    clientId: int,
    startDate: string,
    startTime: string,
    endDate: string,
    endTime: string,
    deliveryMode: DeliveryMode,
    deliveryAddress: Option<string>,
    freightValue: real,
    currency: CurrencyCode,
    status: RentalStatus,
    quoteValidUntil: Option<string>,
    notes: Option<string>,
    items: seq<RentalDraftItem>)

  /** The unsaved state of the new-rental form, kept in the app store. */
  datatype RentalFormDraft = RentalFormDraft(
    selectedClientId: Option<int>,
    startDate: string,
    startTime: string,
    endDate: string,
    endTime: string,
    deliveryMode: DeliveryMode,
    deliveryAddress: string,
    freightValue: string,
    status: RentalStatus,
    quoteValidUntil: string,
    notes: string,
    items: seq<RentalDraftItem>)
}
