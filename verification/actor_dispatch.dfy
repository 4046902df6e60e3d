/** Loading versioned built-in actor state: the actor's code CID selects the
    actor-version the state is decoded as, v8 checked before v9. The blockstore
    read is passed in as a function from the state CID to what the store holds. */
module ActorDispatch {
  import opened Results

  /** A CID, by its canonical base32 text. Equal CIDs have equal text. */
  type CidText = string

  /** The on-chain record of an actor. */
  datatype ActorState = ActorState(code: CidText, state: CidText, sequence: nat, balance: int)

  /** What a typed blockstore read returns: the decoded object, nothing stored
      under that CID, or a store or decode error. */
  datatype Fetch<T> = Found(value: T) | Missing | StoreError(message: string)

  /** State decoded with one of the two supported actor versions. */
  datatype Versioned<A, B> = V8(v8: A) | V9(v9: B)

  const MissingStateMessage: string := "Actor state doesn't exist in store"

  /** A read that must find its object: a missing object is an error with the
      missing-state message, a store error is passed through. */
  function Require<T>(f: Fetch<T>): (r: Result<T, string>)
    ensures r.Ok? <==> f.Found?
    ensures r.Ok? ==> r.value == f.value
    ensures f.Missing? ==> r == Err(MissingStateMessage)
    ensures f.StoreError? ==> r == Err(f.message)
  {
    match f
    case Found(x) => Ok(x)
    case Missing => Err(MissingStateMessage)
    case StoreError(msg) => Err(msg)
  }

  /** The body shared by `State::load` of the market and init actors: a v8
      code reads the state as v8, else a v9 code reads it as v9, else the
      load fails with `unknown`. */
  function LoadVersioned<A, B>(actor: ActorState, isV8: CidText -> bool, isV9: CidText -> bool,
                               fetchV8: CidText -> Fetch<A>, fetchV9: CidText -> Fetch<B>,
                               unknown: string): (r: Result<Versioned<A, B>, string>)
    ensures isV8(actor.code) ==>
              (r.Ok? <==> fetchV8(actor.state).Found?) && (r.Ok? ==> r.value == V8(fetchV8(actor.state).value))
    ensures !isV8(actor.code) && isV9(actor.code) ==>
              (r.Ok? <==> fetchV9(actor.state).Found?) && (r.Ok? ==> r.value == V9(fetchV9(actor.state).value))
    ensures !isV8(actor.code) && !isV9(actor.code) ==> r == Err(unknown)
    ensures isV8(actor.code) && fetchV8(actor.state).Missing? ==> r == Err(MissingStateMessage)
    ensures !isV8(actor.code) && isV9(actor.code) && fetchV9(actor.state).Missing? ==> r == Err(MissingStateMessage)
  {
    if isV8(actor.code) then
      match Require(fetchV8(actor.state))
      case Ok(x) => Ok(V8(x))
      case Err(msg) => Err(msg)
    else if isV9(actor.code) then
      match Require(fetchV9(actor.state))
      case Ok(x) => Ok(V9(x))
      case Err(msg) => Err(msg)
    else Err(unknown)
  }
}
