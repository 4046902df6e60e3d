/** The storage market actor's interface: its address, the code CIDs of the
    two supported versions, and the versioned state. The v8 and v9 state types
    and their `total_locked` belong to the actor crates; they are the type
    parameters `A`, `B` and the functions passed in. */
module MarketActor {
  import opened Results
  import opened ActorDispatch

  /** The market actor's ID address. */
  const AddressId: nat := 5

  const V8Calibnet: CidText := "bafk2bzacebotg5coqnglzsdrqxtkqk2eq4krxt6zvds3i3vb2yejgxhexl2n6"
  const V8Mainnet: CidText := "bafk2bzacediohrxkp2fbsl4yj4jlupjdkgsiwqb4zuezvinhdo2j5hrxco62q"
  const V8Devnet: CidText := "bafk2bzacecw57fpkqesfhi5g3nr4csy4oy7oc42wmwjuis6l7ijniolo4rt2k"
  const V9Calibnet: CidText := "bafk2bzacebkfcnc27d3agm2bhzzbvvtbqahmvy2b2nf5xyj4aoxehow3bules"
  const V9Mainnet: CidText := "bafk2bzacec3j7p6gklk64stax5px3xxd7hdtejaepnd4nw7s2adihde6emkcu"

  const V8Codes: seq<CidText> := [V8Calibnet, V8Mainnet, V8Devnet]
  const V9Codes: seq<CidText> := [V9Calibnet, V9Mainnet]

  /** `is_v8_market_cid`: membership in the v8 list. */
  predicate IsV8MarketCid(code: CidText)
  {
    code in V8Codes
  }

  /** `is_v9_market_cid`: membership in the v9 list. */
  predicate IsV9MarketCid(code: CidText)
  {
    code in V9Codes
  }

  /** The v8 list holds exactly the calibnet, mainnet and devnet codes, and the
      v9 list exactly the calibnet and mainnet codes. */
  lemma KnownCodes(code: CidText)
    ensures IsV8MarketCid(code) <==> code == V8Calibnet || code == V8Mainnet || code == V8Devnet
    ensures IsV9MarketCid(code) <==> code == V9Calibnet || code == V9Mainnet
  {
  }

  /** No code is both a v8 and a v9 market code. */
  lemma VersionsDisjoint(code: CidText)
    ensures !(IsV8MarketCid(code) && IsV9MarketCid(code))
  {
  }

  /** Market actor state, tagged with its version. */
  type State<A, B> = Versioned<A, B>

  function UnknownCodeMessage(code: CidText): string
  {
    "Unknown market actor code " + code
  }

  /** `State::load`: a v8 code yields `V8` of the stored state and a v9 code
      `V9`; absent state and unknown codes are errors. */
  function Load<A, B>(actor: ActorState, fetchV8: CidText -> Fetch<A>, fetchV9: CidText -> Fetch<B>)
    : (r: Result<State<A, B>, string>)
    ensures r.Ok? ==> (r.value.V8? <==> IsV8MarketCid(actor.code))
    ensures r.Ok? ==> (r.value.V9? <==> IsV9MarketCid(actor.code))
    ensures r.Ok? && r.value.V8? ==> fetchV8(actor.state) == Found(r.value.v8)
    ensures r.Ok? && r.value.V9? ==> fetchV9(actor.state) == Found(r.value.v9)
    ensures IsV8MarketCid(actor.code) && fetchV8(actor.state).Found? ==> r.Ok?
    ensures IsV9MarketCid(actor.code) && fetchV9(actor.state).Found? ==> r.Ok?
    ensures IsV8MarketCid(actor.code) && fetchV8(actor.state).Missing? ==> r == Err(MissingStateMessage)
    ensures IsV9MarketCid(actor.code) && fetchV9(actor.state).Missing? ==> r == Err(MissingStateMessage)
    ensures !IsV8MarketCid(actor.code) && !IsV9MarketCid(actor.code) ==> r == Err(UnknownCodeMessage(actor.code))
  {
    VersionsDisjoint(actor.code);
    LoadVersioned(actor, IsV8MarketCid, IsV9MarketCid, fetchV8, fetchV9, UnknownCodeMessage(actor.code))
  }

  /** `total_locked`: the wrapped state's own total, whichever version it is. */
  function TotalLocked<A, B>(s: State<A, B>, lockedV8: A -> int, lockedV9: B -> int): (t: int)
    ensures s.V8? ==> t == lockedV8(s.v8)
    ensures s.V9? ==> t == lockedV9(s.v9)
  {
    match s
    case V8(st) => lockedV8(st)
    case V9(st) => lockedV9(st)
  }

  /** Loading and then asking for the locked total gives the total of the
      state stored under the actor's state CID, read with the version its
      code names. */
  lemma LoadedTotalLocked<A, B>(actor: ActorState, fetchV8: CidText -> Fetch<A>, fetchV9: CidText -> Fetch<B>,
                                lockedV8: A -> int, lockedV9: B -> int)
    requires Load(actor, fetchV8, fetchV9).Ok?
    ensures IsV8MarketCid(actor.code) ==>
              TotalLocked(Load(actor, fetchV8, fetchV9).value, lockedV8, lockedV9) == lockedV8(fetchV8(actor.state).value)
    ensures IsV9MarketCid(actor.code) ==>
              TotalLocked(Load(actor, fetchV8, fetchV9).value, lockedV8, lockedV9) == lockedV9(fetchV9(actor.state).value)
  {
  }
}
