/** The two closed tag sets of the service (order status and currency pair)
    and the fixed rate table that stands in for a market-data lookup. */
module Market {
  import opened Wrappers

  datatype OrderStatus = Pending | Executed | Cancelled

  /** The status's value, as it appears in a published event. */
  function StatusText(s: OrderStatus): (t: string)
    ensures |t| > 0 && forall i :: 0 <= i < |t| ==> 'A' <= t[i] <= 'Z'
    ensures StatusOf(t) == Some(s)
  {
    match s
    case Pending => "PENDING"
    case Executed => "EXECUTED"
    case Cancelled => "CANCELLED"
  }

  /** The status a value names, if any. */
  function StatusOf(text: string): Option<OrderStatus> {
    if text == "PENDING" then Some(Pending)
    else if text == "EXECUTED" then Some(Executed)
    else if text == "CANCELLED" then Some(Cancelled)
    else None
  }

  /** The six currency pairs an order may name ("stoks"). */
  datatype Stoks = EuroToSek | DollarToSek | PoundToSek | SekToEuro | SekToDollar | SekToPound

  /** The code a client sends for a pair: six letters, the source currency
      first, one side always SEK. */
  function Code(s: Stoks): (c: string)
    ensures |c| == 6 && forall i :: 0 <= i < 6 ==> 'A' <= c[i] <= 'Z'
    ensures s in {EuroToSek, DollarToSek, PoundToSek} ==> c[3..] == "SEK" && c[0] != 'S'
    ensures s in {SekToEuro, SekToDollar, SekToPound} ==> c[..3] == "SEK" && c[3] != 'S'
  {
    match s
    case EuroToSek => "EURSEK"
    case DollarToSek => "DOLSEK"
    case PoundToSek => "POUSEK"
    case SekToEuro => "SEKEUR"
    case SekToDollar => "SEKDOL"
    case SekToPound => "SEKPOU"
  }

  /** The pair a code names, if any: the membership test against the
      enumeration's values. */
  function StoksOf(code: string): (r: Option<Stoks>)
    ensures r.Some? ==> Code(r.value) == code
    ensures r.None? ==> forall s: Stoks :: Code(s) != code
  {
    if code == "EURSEK" then Some(EuroToSek)
    else if code == "DOLSEK" then Some(DollarToSek)
    else if code == "POUSEK" then Some(PoundToSek)
    else if code == "SEKEUR" then Some(SekToEuro)
    else if code == "SEKDOL" then Some(SekToDollar)
    else if code == "SEKPOU" then Some(SekToPound)
    else None
  }

  /** Each pair is recognised by its own code and by no other. */
  lemma StoksRoundTrip(s: Stoks, code: string)
    ensures StoksOf(Code(s)) == Some(s)
    ensures StoksOf(code) == Some(s) <==> code == Code(s)
  {
  }

  /** The fixed rate table. Rates are fixed-point numbers with four
      decimals: 110886 stands for 11.0886. */
  function MockRate(s: Stoks): (rate: nat)
    ensures rate > 0
  {
    match s
    case EuroToSek => 110886
    case SekToEuro => 780
    case DollarToSek => 102773
    case SekToDollar => 823
    case PoundToSek => 124602
    case SekToPound => 677
  }

  /** The rate lookup by code; `None` is the "failed fetching rates" error
      raised for a code outside the table. */
  function FetchRate(code: string): (r: Option<nat>)
    ensures r.Some? <==> exists s: Stoks :: Code(s) == code
    ensures r.Some? ==> r.value > 0 && StoksOf(code).Some? && r.value == MockRate(StoksOf(code).value)
  {
    match StoksOf(code)
    case None => None
    case Some(s) => Some(MockRate(s))
  }
}
