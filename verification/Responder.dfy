/**
 * The responder as a state machine (src/responder/store.ts, src/responder/multiResponder.ts): the queue, the latest
 * item of every response and what has been sent to the network. Each critical section is one step.
 */
module Responder {
  import opened Wrappers
  import opened GasQueue

  /** `sent` lists every item handed to the network, oldest first. */
  datatype State = State(queue: GasQueue, transactions: map<string, Item>, sent: seq<Item>)

  /** Later items overwrite earlier ones with the same response id. */
  function Recorded(transactions: map<string, Item>, items: seq<Item>): map<string, Item>
    decreases |items|
  {
    if items == [] then transactions
    else Recorded(transactions[items[0].request.id := items[0]], items[1..])
  }

  function UpdateQueue(s: State, queue: GasQueue): State {
    var difference := Difference(queue, s.queue);
    State(queue, Recorded(s.transactions, difference), s.sent + difference)
  }

  function Updated(s: State, queue: Result<GasQueue, QueueError>): State {
    match queue
    case Success(q) => UpdateQueue(s, q)
    case Failure(_) => s
  }

  function StartResponse(s: State, request: Request): State
    requires s.queue.replacementRate >= 1
  {
    if DepthIsReached(s.queue) then s else Updated(s, Add(s.queue, request))
  }

  /** The caller is told only about this one of the errors. */
  predicate ReportsAlreadyAdded(s: State, request: Request)
    requires s.queue.replacementRate >= 1
  {
    !DepthIsReached(s.queue) && Add(s.queue, request) == Failure(AlreadyAdded)
  }

  /** The mined transaction belongs to the queue and has the nonce at its front. */
  predicate AcceptsMined(s: State, identifier: Identifier, nonce: int) {
    && s.queue.items != []
    && IndexOf(s.queue.items, identifier) != -1
    && s.queue.items[0].nonce == nonce
  }

  /** The front item is dequeued; any other has to be consumed, which moves the items before it. */
  function Reduced(s: State, identifier: Identifier): Result<GasQueue, QueueError>
    requires s.queue.replacementRate >= 1 && s.queue.items != []
  {
    if Same(identifier, s.queue.items[0].request.identifier) then Dequeue(s.queue) else Consume(s.queue, identifier)
  }

  function TxMined(s: State, identifier: Identifier, nonce: int): State
    requires s.queue.replacementRate >= 1
  {
    if !AcceptsMined(s, identifier, nonce) then s else Updated(s, Reduced(s, identifier))
  }

  /** The recorded items of `ids` that are not queued; None if some id has no record. */
  function MissingItems(s: State, ids: seq<string>): Option<seq<Item>>
    decreases |ids|
  {
    if ids == [] then Some([])
    else if ids[0] !in s.transactions then None
    else
      match MissingItems(s, ids[1..])
      case None => None
      case Some(rest) =>
        var item := s.transactions[ids[0]];
        Some((if Contains(s.queue, item.request.identifier) then [] else [item]) + rest)
  }

  function ReEnqueueMissingItems(s: State, ids: seq<string>): State
    requires s.queue.replacementRate >= 1
  {
    match MissingItems(s, ids)
    case None => s
    case Some(missing) => if missing == [] then s else Updated(s, Prepend(s.queue, missing))
  }

  function EndResponse(s: State, id: string): State {
    s.(transactions := s.transactions - {id})
  }

  // ---- Runs --------------------------------------------------------------------------------------------

  datatype Step =
    | Start(request: Request)
    | Mined(identifier: Identifier, nonce: int)
    | ReEnqueue(ids: seq<string>)
    | End(id: string)

  function Next(s: State, step: Step): (r: State)
    requires s.queue.replacementRate >= 1
    ensures r.queue.replacementRate == s.queue.replacementRate
  {
    match step
    case Start(request) => StartResponse(s, request)
    case Mined(identifier, nonce) => TxMined(s, identifier, nonce)
    case ReEnqueue(ids) => ReEnqueueMissingItems(s, ids)
    case End(id) => EndResponse(s, id)
  }

  function Run(s: State, steps: seq<Step>): (r: State)
    requires s.queue.replacementRate >= 1
    ensures r.queue.replacementRate == s.queue.replacementRate
    decreases |steps|
  {
    if steps == [] then s else Run(Next(s, steps[0]), steps[1..])
  }
}
