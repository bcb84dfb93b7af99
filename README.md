# Order book of the currency-order simulator, in Dafny

This project models the core of `server.py` of a trading-order simulator. Clients submit
currency-exchange orders, each naming one of six currency pairs ("stoks") and a quantity.
The service validates each order and stores it in an in-memory list. It gives the order the
next id, the pair's fixed rate and the status PENDING, and then processes it in the
background. Every status change is published as a text event to every subscriber queue of a
fan-out publisher (the `Listener`).

Modules:

- `Wrappers`: the `Option` type.
- `Numerals`: Python's `int(str)` (ids come from the URL path as strings) and `float(...)`
  on strings (quantities may be numeric strings), and the decimal rendering of an id inside
  an event. Both parsers follow Python's rules. They strip from both ends the six ASCII
  white-space characters (tab, line feed, vertical tab, form feed, carriage return, space)
  and the non-ASCII characters Unicode counts as white space; the ASCII separators U+001C to
  U+001F are not stripped. An optional sign is allowed, and single underscores may stand
  between digits. `float` also accepts
  fractions, exponents, `inf`/`infinity` and `nan`.
- `Market`: `OrderStatus`, the six `Stoks` pairs with their codes, and the fixed rate table
  with its lookup.
- `Lifecycle`: the allowed status changes (PENDING to EXECUTED, PENDING to CANCELLED,
  EXECUTED to CANCELLED). It also holds the processor's random draws: five durations
  against a one-second timeout, and a clawback when a die from 0 to 5 shows 5.
- `Validator`: the request body as a JSON value, and the three checks of `_verify_order`.
  Every failure is reported; only a non-dict request stops the checks early.
- `Relay`: the subscriber `Queue` and the `Listener` class, with `Subscribe` and the
  fan-out `Publish`.
- `Store`: the `Order` record, id assignment, the first-match lookup shared by fetch and
  cancel, the event texts with a reader that recovers the order id and status from them, and the `OrderBook` class. `OrderBook` holds the order list and
  the listener, and its methods create, fetch, cancel and process orders in place.

Once the simulated delays are removed, every operation runs with no suspension point
between reading the order list and writing it. This includes each publish, which never
awaits. So the model treats the operations as sequential steps on the shared state. The
random draws of the processor are parameters: `durationIndex` picks one of
`[0.2, 0.4, 0.6, 0.7, 2.0]` seconds (kept in tenths: `[2, 4, 6, 7, 20]` against a timeout
of 10), and `die` is the clawback draw. Rates are fixed-point integers with four decimals
(11.0886 is `110886`).

Behaviour kept as the code has it:

- A non-numeric id is noticed only inside the scan of the order list. So it gives
  "Order not found!" (`OrderNotFound`) on a non-empty book, and "No order with id"
  (`NoOrderWithId`) on an empty one (`Store.FindOrder`, `Store.NotFoundCases`).
- A clawback publishes the same event text a second time. That text was built before the
  status flip, so it still names EXECUTED while the order is CANCELLED
  (`Store.ClawbackEventIsStale`).
- The clawback odds are 1 in 6, although a comment in the code says 20 %
  (`Lifecycle.ProcessingOdds`).
- The unexpected keys of a request are a set: the code lists them in no fixed order.
- A queue subscribed twice gets every event twice. `Relay.Listener.Publish` states the
  general case, and then the exactly-once case for a list without repetitions.
- The request key for the currency pair is `stoks`.
- `Listener` has no unsubscribe operation.
- Publishing re-raises a failed put, though an unbounded queue never fails a put.
- A code outside the rate table raises a generic exception (`None` from `FetchRate`).
- Cancelling returns the order itself.

## Model

| member | source | states |
|---|---|---|
| `Numerals.TrimStart` | server.py:199 | drops a prefix made only of white space (ASCII tab to carriage return, space, non-ASCII Unicode white space; not U+001C to U+001F), leaving a text that does not start with white space |
| `Numerals.TrimEnd` | server.py:199 | drops a suffix made only of that white space, leaving a text that does not end with white space |
| `Numerals.SeparatorIsNotStripped` | server.py:199 | `int("\x1c5")` is a `ValueError`: the file separator is not stripped |
| `Numerals.WithoutUnderscores` | server.py:199 | the result holds no underscore; a digit group leaves a non-empty digit string; a digit string is kept as it is; a lone underscore is dropped |
| `Numerals.WithoutUnderscoresKeeps` | server.py:199 | any single character other than `_` is kept |
| `Numerals.WithoutUnderscoresAppend` | server.py:199 | removing underscores distributes over concatenation, so with the one-character cases (`_` dropped, `WithoutUnderscoresKeeps`) the result is the subsequence of characters other than `_` |
| `Numerals.UnderscoreExample` | server.py:199 | `int("1_000")` is 1000 |
| `Numerals.NatToString` | server.py:117-118 | the rendering of an id is a non-empty digit string, with no leading zero, whose value is the id |
| `Numerals.IntToString` | server.py:117-118 | the rendering of an id starts with `-` exactly for a negative id and is otherwise made of digits, ending in a digit |
| `Numerals.ParseInt` | server.py:199 | a digit string with white space around it is read as its value; anything accepted is, after stripping, an optional sign then text ending in a digit; a negative result needs a leading `-`, and a leading `-` gives a result at most zero |
| `Numerals.ParseIntOfRendering` | server.py:199 | `int()` reads back every rendered id: `ParseInt(IntToString(n)) == Some(n)` |
| `Numerals.ParseFloat` | server.py:172 | NaN exactly for the word `nan` and an infinity exactly for `inf`/`infinity` (any case, after sign and white space), negative exactly when signed `-`; a finite result below zero needs a leading `-` |
| `Numerals.AsciiLowerAt` | server.py:172 | the case folding used for the `inf`/`nan` words maps each ASCII capital to its small letter and keeps every other character |
| `Numerals.ParseFloatOfInt` | server.py:172 | every string `int()` accepts, `float()` accepts with the same value |
| `Numerals.ParseFloatFraction` | server.py:172 | `w.f` for digit groups `w` and `f` is the digits of both over ten to the number of fraction digits |
| `Numerals.ParseFloatExponent` | server.py:172 | `m` followed by `e` and the digit group `x` is `m` times ten to the `x` |
| `Numerals.NonNumericExample` | tests/test_rest_api.py:61 | `float("50k0c")` is a `ValueError` |
| `Numerals.NonNumericIdExample` | tests/test_rest_api.py:31 | `int("5dc")` is a `ValueError` |
| `Market.StatusText` | server.py:17-20 | each status's value is upper-case letters and is read back as that status |
| `Market.Code` | server.py:23-29 | each code is six capital letters with SEK on the target side for the three pairs into SEK and on the source side for the three out of it |
| `Market.StoksOf` | server.py:162 | a code is recognised exactly when it is one of the six pair codes, and it names that pair |
| `Market.StoksRoundTrip` | server.py:23-29 | each pair is recognised by its own code and by no other |
| `Market.MockRate` | server.py:96-98 | every pair has a positive rate in the table |
| `Market.FetchRate` | server.py:129-133 | the lookup succeeds exactly for the six codes and returns that pair's table rate; any other code is the "failed fetching rates" error |
| `Lifecycle.Transition` | server.py:101-126 | the allowed changes are exactly those that never lower the rank PENDING < EXECUTED < CANCELLED |
| `Lifecycle.CancelledIsFinal` | server.py:101-126 | CANCELLED is absorbing and nothing returns to PENDING |
| `Lifecycle.TraceTransition` | server.py:101-126 | along any run of allowed changes, the first and last status are related by an allowed change, and a CANCELLED order stays CANCELLED |
| `Lifecycle.FirstStatus` | server.py:108-115 | the processor sets EXECUTED, or CANCELLED exactly when the drawn duration is the 2.0 s one, and never PENDING |
| `Lifecycle.ClawsBack` | server.py:121-122 | only an EXECUTED order is clawed back, and an EXECUTED one exactly when the die shows 5 |
| `Lifecycle.FinalStatus` | server.py:120-124 | the processor's two steps are allowed changes; the order ends EXECUTED exactly when it executed and the die is not 5 |
| `Lifecycle.ProcessingOdds` | server.py:120-122 | four of the five durations execute, and one die face in six claws back |
| `Validator.FloatOf` | server.py:172 | `float()` of a bool, int or float value always succeeds, and of an int gives its value |
| `Validator.Unexpected` | server.py:153 | the unexpected keys are exactly the keys other than `stoks` and `quantity` |
| `Validator.VerifyStoks` | server.py:159-165 | no error exactly for a known code; "missing" exactly when the key is absent; otherwise "unrecognized", carrying the value |
| `Validator.VerifyQuantity` | server.py:168-179 | no error exactly for a value convertible to a number at least zero; "missing" exactly when absent, "non-numeric" exactly when `float()` rejects it, "negative" exactly when the number is below zero or NaN |
| `Validator.Verify` | server.py:147-156 | a non-dict gets exactly `[NotDict]`; a dict gets no error exactly when it is acceptable; its errors are exactly those of the three checks, each at most once, in check order |
| `Validator.AcceptsValidExample` | tests/test_rest_api.py:56 | `{"stoks": "EURSEK", "quantity": 125}` passes |
| `Validator.RejectsMissingStoks` | tests/test_rest_api.py:57 | `{"quantity": 125}` gets only the missing-stoks error |
| `Validator.RejectsMissingQuantity` | tests/test_rest_api.py:58 | `{"stoks": "EURSEK"}` gets only the missing-quantity error |
| `Validator.RejectsUnknownPair` | tests/test_rest_api.py:59 | an unknown code gets only the unrecognized-stoks error |
| `Validator.RejectsNegativeQuantity` | tests/test_rest_api.py:60 | quantity -50 gets only the negative-quantity error |
| `Validator.RejectsNonNumericQuantity` | tests/test_rest_api.py:61 | quantity "50k0c" gets only the non-numeric error |
| `Validator.RejectsUnknownPairAndExtraKey` | tests/test_rest_api.py:62 | an unknown code and an extra key get both errors, stoks first |
| `Relay.Queue.constructor` | server.py:279 | a new subscriber queue is empty |
| `Relay.Listener.constructor` | server.py:36-42 | a new listener has no subscribers |
| `Relay.Listener.Subscribe` | server.py:44-47 | appends the queue to the subscriber list and changes nothing else; a new queue keeps the list free of repetitions |
| `Relay.Listener.Publish` | server.py:76-84 | every subscribed queue gets the message appended once per occurrence in the list (exactly once when there are no repetitions); the list and all other queues are unchanged |
| `Relay.DistinctOnce` | server.py:44-47 | in a subscriber list without repetitions each queue occurs exactly once |
| `Store.MaxId` | server.py:139 | the maximum is one of the stored ids and no stored id exceeds it |
| `Store.NextId` | server.py:136-139 | 1 for an empty book; otherwise one more than an existing id and larger than every stored id |
| `Store.NextIdKeepsIdsUnique` | server.py:212-215 | appending an order under the next id keeps ids unique and positive |
| `Store.IndexOfId` | server.py:103-104 | finds the first order with the id, or reports that none has it |
| `Store.NewOrderIsFound` | server.py:103-104 | the processor's lookup by a new order's id reaches that order |
| `Store.FindOrder` | server.py:197-203 | a hit is the first order whose id equals `int(rawId)`; "Order not found!" exactly for a non-numeric id on a non-empty book; "No order with id" exactly for an empty book or an id no order has |
| `Store.FindRenderedId` | server.py:197-203 | with unique ids, the rendered id of a stored order finds exactly that order |
| `Store.NotFoundCases` | tests/test_rest_api.py:28-31 | an unknown id and a non-numeric id are both not found, with distinct errors on a non-empty book |
| `Store.NewOrderEventReadsBack` | server.py:217-218 | the id and status can be read back from a creation event |
| `Store.StatusUpdateEventReadsBack` | server.py:117-118 | the id and status can be read back from a status-update event |
| `Store.EventKindsDiffer` | server.py:217-218 | a creation event is never a status-update event |
| `Store.StatusUpdateNamesStatus` | server.py:117-118 | status-update events for one order are equal exactly when they name the same status |
| `Store.ProcessingEvents` | server.py:116-126 | a queue subscribed n times receives n copies of the status event, or 2n on a clawback, all naming the first status set |
| `Store.ClawbackEventIsStale` | server.py:117-126 | on a clawback the order ends CANCELLED while both events name EXECUTED, which differs from the CANCELLED event |
| `Store.EvolvesTransitive` | server.py:223-237 | successive operations only append orders and change statuses by allowed steps: CANCELLED stays CANCELLED, EXECUTED stays EXECUTED or becomes CANCELLED |
| `Store.OrderBook.constructor` | server.py:95 | the book starts empty, with ids trivially unique |
| `Store.OrderBook.AddOrder` | server.py:206-220 | a rejected request returns all its validation errors and changes neither the book nor any queue; an accepted one appends exactly one PENDING order with the next id, the request's pair and quantity and the pair's rate, and delivers one "new order" event to each queue; ids stay unique |
| `Store.OrderBook.Locate` | server.py:197-203 | the scan of the book returns exactly what `FindOrder` specifies: the first order with the id, or the right not-found error |
| `Store.OrderBook.GetOrder` | server.py:191-203 | returns the order `FindOrder` locates, or its not-found error |
| `Store.OrderBook.CancelOrder` | server.py:223-237 | not found: nothing changes; found: only that order may change, it ends CANCELLED, and one event is published exactly when it was not already CANCELLED (idempotent) |
| `Store.OrderBook.CancelLocated` | server.py:226-237 | a miss changes nothing and returns its error; a hit cancels the order at that position as `CancelAt` does and returns it |
| `Store.OrderBook.CancelAt` | server.py:228-233 | the located order becomes CANCELLED and one status event is published, unless it was already CANCELLED |
| `Store.OrderBook.ProcessOrder` | server.py:101-106 | an order that is not PENDING, or an id with no order, changes nothing; otherwise only that order changes, to its final status, with its events delivered; every change is an allowed transition |
| `Store.OrderBook.ProcessAt` | server.py:107-126 | the PENDING order gets `FinalStatus` and each queue receives the `ProcessingEvents`; no other order changes |

## Left out

- HTTP routes, status codes and JSON encoding (server.py:240-274) are transport glue. The
  replies are datatypes (`Reply`, `AddReply`), with 400 for `Rejected` and 404 for
  `NotFound`.
- The websocket endpoint, `Listener._listener`, `start_listening` and `stop_listening`
  (server.py:49-74, 276-286) are out: socket I/O, an async receive loop and task lifecycle.
  The `_listener` fan-out loop is the same as `Publish`.
- `get_orders_from_db` (server.py:182-188) only returns the list, which is the `orders`
  field of `OrderBook`.
- `time.sleep` delays are dropped. `random` draws are parameters of `ProcessOrder`.
- Error texts are not rendered. Validation and not-found errors are datatypes carrying the
  offending value or raw id. Python's `str`/`repr` of values and the listing of the
  recognised codes are out.
- Store.OrderBook.AddOrder, Validator.Verify: requests that make Python raise `TypeError`
  are excluded by `InScope`. These are a list or dict as stoks, and null, a list or a dict
  as quantity. The code does not handle them.
- Numerals.ParseFloat: finite floats are exact reals. Rounding, overflow to infinity and
  underflow to zero are out. So `"-1e-400"` counts as negative here, while Python reads it
  as -0.0, which is at least zero. `float()` of an int too large for a double
  (`OverflowError`) is also out.
- Numerals.ParseInt: the limit of 4300 digits that `int()` puts on a decimal string in
  Python 3.10.7 and later is not modelled. On those versions a longer id makes `int()`
  raise `ValueError`, so a non-empty book answers "Order not found!". The model instead
  reads the id and answers "No order with id".
- Numerals.ParseInt: only ASCII digits are modelled. Python's `int()` and `float()` also
  accept other Unicode decimal digits.
- Store.StatusUpdateMessage: the status is rendered as its value (`EXECUTED`). Python 3.11
  and later format this mixed-in `str` enum as `OrderStatus.EXECUTED`.
- Store.OrderBook.GetOrder: the stored order dict is shared with whoever receives it. The
  model returns the order as a value, so aliasing is not modelled.
- Relay.Listener.Publish: states the final contents of each queue, not the order in which
  the queues receive the message.
- utils.py (configuration reading), the websocket client example, conftest.py and the
  tests are outside the core. The tests' request cases appear as lemmas.
