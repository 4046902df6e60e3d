/** The init actor's interface: its address, the code CIDs of the two
    supported versions, and the versioned state whose network name it exposes. */
module InitActor {
  import opened Results
  import opened ActorDispatch

  /** The init actor's ID address. */
  const AddressId: nat := 1

  const V8Calibnet: CidText := "bafk2bzaceadyfilb22bcvzvnpzbg2lyg6npmperyq6es2brvzjdh5rmywc4ry"
  const V8Mainnet: CidText := "bafk2bzaceaipvjhoxmtofsnv3aj6gj5ida4afdrxa4ewku2hfipdlxpaektlw"
  const V8Devnet: CidText := "bafk2bzacedarbnovmucppbjkcwsxopludrj5ttmtm7mzfqsugmxdnqevqso7o"
  const V9Calibnet: CidText := "bafk2bzaceczqxpivlxifdo5ohr2rx5ny4uyvssm6tkf7am357xm47x472yxu2"
  const V9Mainnet: CidText := "bafk2bzacebtdq4zyuxk2fzbdkva6kc4mx75mkbfmldplfntayhbl5wkqou33i"

  const V8Codes: seq<CidText> := [V8Calibnet, V8Mainnet, V8Devnet]
  const V9Codes: seq<CidText> := [V9Calibnet, V9Mainnet]

  /** `is_v8_init_cid`: membership in the v8 list. */
  predicate IsV8InitCid(code: CidText)
  {
    code in V8Codes
  }

  /** `is_v9_init_cid`: membership in the v9 list. */
  predicate IsV9InitCid(code: CidText)
  {
    code in V9Codes
  }

  /** The v8 list holds exactly the calibnet, mainnet and devnet codes, and the
      v9 list exactly the calibnet and mainnet codes. */
  lemma KnownCodes(code: CidText)
    ensures IsV8InitCid(code) <==> code == V8Calibnet || code == V8Mainnet || code == V8Devnet
    ensures IsV9InitCid(code) <==> code == V9Calibnet || code == V9Mainnet
  {
  }

  /** No code is both a v8 and a v9 init code. */
  lemma VersionsDisjoint(code: CidText)
    ensures !(IsV8InitCid(code) && IsV9InitCid(code))
  {
  }

  /** The init actor's state in either version: the address map root, the
      next actor ID to hand out, and the network name. */
  datatype InitState = InitState(addressMap: CidText, nextId: nat, networkName: string)

  type State = Versioned<InitState, InitState>

  function UnknownCodeMessage(code: CidText): string
  {
    "Unknown init actor code " + code
  }

  /** `State::load`: a v8 code yields `V8` of the stored state, else a v9 code
      `V9`, else an unknown-code error; absent state is an error. */
  function Load(actor: ActorState, fetchV8: CidText -> Fetch<InitState>, fetchV9: CidText -> Fetch<InitState>)
    : (r: Result<State, string>)
    ensures r.Ok? ==> (r.value.V8? <==> IsV8InitCid(actor.code))
    ensures r.Ok? ==> (r.value.V9? <==> IsV9InitCid(actor.code))
    ensures r.Ok? && r.value.V8? ==> fetchV8(actor.state) == Found(r.value.v8)
    ensures r.Ok? && r.value.V9? ==> fetchV9(actor.state) == Found(r.value.v9)
    ensures IsV8InitCid(actor.code) && fetchV8(actor.state).Found? ==> r.Ok?
    ensures IsV9InitCid(actor.code) && fetchV9(actor.state).Found? ==> r.Ok?
    ensures IsV8InitCid(actor.code) && fetchV8(actor.state).Missing? ==> r == Err(MissingStateMessage)
    ensures IsV9InitCid(actor.code) && fetchV9(actor.state).Missing? ==> r == Err(MissingStateMessage)
    ensures !IsV8InitCid(actor.code) && !IsV9InitCid(actor.code) ==> r == Err(UnknownCodeMessage(actor.code))
  {
    VersionsDisjoint(actor.code);
    LoadVersioned(actor, IsV8InitCid, IsV9InitCid, fetchV8, fetchV9, UnknownCodeMessage(actor.code))
  }

  /** `into_network_name`: the wrapped state's network name, whichever
      version it is. */
  function IntoNetworkName(s: State): (name: string)
    ensures s.V8? ==> name == s.v8.networkName
    ensures s.V9? ==> name == s.v9.networkName
  {
    match s
    case V8(st) => st.networkName
    case V9(st) => st.networkName
  }

  /** The network name of a loaded state is the one stored under the actor's
      state CID, read with the version its code names. */
  lemma LoadedNetworkName(actor: ActorState, fetchV8: CidText -> Fetch<InitState>,
                          fetchV9: CidText -> Fetch<InitState>)
    requires Load(actor, fetchV8, fetchV9).Ok?
    ensures IsV8InitCid(actor.code) ==>
              IntoNetworkName(Load(actor, fetchV8, fetchV9).value) == fetchV8(actor.state).value.networkName
    ensures IsV9InitCid(actor.code) ==>
              IntoNetworkName(Load(actor, fetchV8, fetchV9).value) == fetchV9(actor.state).value.networkName
  {
  }
}
