/** The records the front end exchanges with the back end (`ItemLine`,
    `PriceList`, `Offer`), restricted to the fields the modelled code reads or
    writes. Prices and weights are exact reals; dates are whole days. */
module Types {

  /** One priced line of a price list or an offer. */
  datatype ItemLine = ItemLine(
    item_line: string,
    supplier: string,
    price_20: real,
    price_40: real,
    price_20_usd: real,
    price_40_usd: real,
    currency: real,
    currency_code: string)

  datatype PriceList = PriceList(
    category: string,
    incoterm: string,
    valid_from: int,
    valid_until: int,
    details: seq<ItemLine>,
    total_price_20_usd: real,
    total_price_40_usd: real,
    senderInformation: string,
    company: string)

  datatype WeightLimit = WeightLimit(w_20: real, w_40: real)

  datatype Offer = Offer(
    loading_port: string,
    transit_port: string,
    discharge_port: string,
    train_station: string,
    final_destination: string,
    weight_limit: WeightLimit,
    details: seq<ItemLine>,
    total_price_20_usd: real,
    total_price_40_usd: real,
    priceLists: seq<PriceList>,
    mode: seq<string>,
    senderInformation: string,
    company: string)

  /** The logged-in user, reduced to the two ids the forms copy. */
  datatype User = User(id: string, companyId: string)
}
