/** Access control of the JSON-RPC API: the access level each method requires
    and the check of a level against the claims of a JWT. */
module RpcAccess {
  import opened Results

  /** Access levels, checked against JWT claims. */
  datatype Access = Admin | Sign | Write | Read

  /** The claim a token must carry for a level: the level's name in lower case. */
  function ClaimName(a: Access): string
  {
    match a
    case Admin => "admin"
    case Sign => "sign"
    case Write => "write"
    case Read => "read"
  }

  /** `check_access`: a level is granted exactly when the claims contain its
      own lower-case name. */
  function CheckAccess(access: Access, claims: seq<string>): (granted: bool)
    ensures granted <==> exists i :: 0 <= i < |claims| && claims[i] == ClaimName(access)
  {
    ClaimName(access) in claims
  }

  /** No two levels share a claim name. */
  lemma ClaimNamesDistinct(a: Access, b: Access)
    ensures ClaimName(a) == ClaimName(b) <==> a == b
  {
  }

  /** There is no hierarchy between levels: the claim of one level never
      grants another, so an `admin` claim alone does not grant `Read`. */
  lemma NoHierarchy(granted: Access, asked: Access)
    ensures CheckAccess(asked, [ClaimName(granted)]) <==> asked == granted
  {
    ClaimNamesDistinct(granted, asked);
  }

  /** An empty claim list grants nothing. */
  lemma EmptyClaimsRejected(a: Access)
    ensures !CheckAccess(a, [])
  {
  }

  /** The registered JSON-RPC methods, one per method-name constant. */
  datatype Method =
    // Auth API
    | AuthNew | AuthVerify
    // Beacon API
    | BeaconGetEntry
    // Chain API
    | ChainGetMessage | ChainExport | ChainReadObj | ChainHasObj | ChainGetBlockMessages
    | ChainGetTipsetByHeight | ChainGetGenesis | ChainHead | ChainGetBlock | ChainGetTipSet
    | ChainGetTipSetHash | ChainValidateTipSetCheckpoints | ChainGetName
    // Message Pool API
    | MpoolPending | MpoolPush | MpoolPushMessage
    // Sync API
    | SyncCheckBad | SyncMarkBad | SyncState
    // Wallet API
    | WalletBalance | WalletDefaultAddress | WalletExport | WalletHas | WalletImport
    | WalletList | WalletNew | WalletSetDefault | WalletSign | WalletVerify
    // State API
    | StateCall | StateReplay | StateMarketBalance | StateMarketDeals | StateGetReceipt
    | StateWaitMsg | StateNetworkName | StateNetworkVersion
    // Gas API
    | GasEstimateGasLimit | GasEstimateGasPremium | GasEstimateFeeCap | GasEstimateMessageGas
    // Common API
    | Version
    // Net API
    | NetAddrsListen | NetPeers | NetConnect | NetDisconnect

  /** The namespace every registered method name starts with. */
  const Namespace: string := "Filecoin."

  /** The method name on the wire: the namespace followed by the method's own name. */
  function Name(m: Method): string
  {
    Namespace + Suffix(m)
  }

  /** The part of the wire name after `Filecoin.`. */
  function Suffix(m: Method): string
  {
    match m
    // Auth API
    case AuthNew => "AuthNew"
    case AuthVerify => "AuthVerify"
    // Beacon API
    case BeaconGetEntry => "BeaconGetEntry"
    // Chain API
    case ChainGetMessage => "ChainGetMessage"
    case ChainExport => "ChainExport"
    case ChainReadObj => "ChainReadObj"
    case ChainHasObj => "ChainHasObj"
    case ChainGetBlockMessages => "ChainGetBlockMessages"
    case ChainGetTipsetByHeight => "ChainGetTipsetByHeight"
    case ChainGetGenesis => "ChainGetGenesis"
    case ChainHead => "ChainHead"
    case ChainGetBlock => "ChainGetBlock"
    case ChainGetTipSet => "ChainGetTipSet"
    case ChainGetTipSetHash => "ChainGetTipSetHash"
    case ChainValidateTipSetCheckpoints => "ChainValidateTipSetCheckpoints"
    case ChainGetName => "ChainGetName"
    // Message Pool API
    case MpoolPending => "MpoolPending"
    case MpoolPush => "MpoolPush"
    case MpoolPushMessage => "MpoolPushMessage"
    // Sync API
    case SyncCheckBad => "SyncCheckBad"
    case SyncMarkBad => "SyncMarkBad"
    case SyncState => "SyncState"
    // Wallet API
    case WalletBalance => "WalletBalance"
    case WalletDefaultAddress => "WalletDefaultAddress"
    case WalletExport => "WalletExport"
    case WalletHas => "WalletHas"
    case WalletImport => "WalletImport"
    case WalletList => "WalletList"
    case WalletNew => "WalletNew"
    case WalletSetDefault => "WalletSetDefault"
    case WalletSign => "WalletSign"
    case WalletVerify => "WalletVerify"
    // State API
    case StateCall => "StateCall"
    case StateReplay => "StateReplay"
    case StateMarketBalance => "StateMarketBalance"
    case StateMarketDeals => "StateMarketDeals"
    case StateGetReceipt => "StateGetReceipt"
    case StateWaitMsg => "StateWaitMsg"
    case StateNetworkName => "StateNetworkName"
    case StateNetworkVersion => "StateNetworkVersion"
    // Gas API
    case GasEstimateGasLimit => "GasEstimateGasLimit"
    case GasEstimateGasPremium => "GasEstimateGasPremium"
    case GasEstimateFeeCap => "GasEstimateFeeCap"
    case GasEstimateMessageGas => "GasEstimateMessageGas"
    // Common API
    case Version => "Version"
    // Net API
    case NetAddrsListen => "NetAddrsListen"
    case NetPeers => "NetPeers"
    case NetConnect => "NetConnect"
    case NetDisconnect => "NetDisconnect"
  }

  /** The entries of `ACCESS_MAP`: the level each registered method requires. */
  function Level(m: Method): Access
  {
    match m
    // Auth API
    case AuthNew => Admin
    case AuthVerify => Read
    // Beacon API
    case BeaconGetEntry => Read
    // Chain API
    case ChainGetMessage => Read
    case ChainExport => Read
    case ChainReadObj => Read
    case ChainHasObj => Read
    case ChainGetBlockMessages => Read
    case ChainGetTipsetByHeight => Read
    case ChainGetGenesis => Read
    case ChainHead => Read
    case ChainGetBlock => Read
    case ChainGetTipSet => Read
    case ChainGetTipSetHash => Read
    case ChainValidateTipSetCheckpoints => Read
    case ChainGetName => Read
    // Message Pool API
    case MpoolPending => Read
    case MpoolPush => Write
    case MpoolPushMessage => Sign
    // Sync API
    case SyncCheckBad => Read
    case SyncMarkBad => Admin
    case SyncState => Read
    // Wallet API
    case WalletBalance => Write
    case WalletDefaultAddress => Write
    case WalletExport => Admin
    case WalletHas => Write
    case WalletImport => Admin
    case WalletList => Write
    case WalletNew => Write
    case WalletSetDefault => Write
    case WalletSign => Sign
    case WalletVerify => Read
    // State API
    case StateCall => Read
    case StateReplay => Read
    case StateMarketBalance => Read
    case StateMarketDeals => Read
    case StateGetReceipt => Read
    case StateWaitMsg => Read
    case StateNetworkName => Read
    case StateNetworkVersion => Read
    // Gas API
    case GasEstimateGasLimit => Read
    case GasEstimateGasPremium => Read
    case GasEstimateFeeCap => Read
    case GasEstimateMessageGas => Read
    // Common API
    case Version => Read
    // Net API
    case NetAddrsListen => Read
    case NetPeers => Read
    case NetConnect => Write
    case NetDisconnect => Write
  }

  // The methods of each API group, in the order they are inserted into `ACCESS_MAP`.
  const AuthApi: seq<Method> := [AuthNew, AuthVerify]
  const BeaconApi: seq<Method> := [BeaconGetEntry]
  const ChainApi: seq<Method> := [
    ChainGetMessage, ChainExport, ChainReadObj, ChainHasObj, ChainGetBlockMessages,
    ChainGetTipsetByHeight, ChainGetGenesis, ChainHead, ChainGetBlock, ChainGetTipSet,
    ChainGetTipSetHash, ChainValidateTipSetCheckpoints, ChainGetName
  ]
  const MpoolApi: seq<Method> := [MpoolPending, MpoolPush, MpoolPushMessage]
  const SyncApi: seq<Method> := [SyncCheckBad, SyncMarkBad, SyncState]
  const WalletApi: seq<Method> := [
    WalletBalance, WalletDefaultAddress, WalletExport, WalletHas, WalletImport, WalletList,
    WalletNew, WalletSetDefault, WalletSign, WalletVerify
  ]
  const StateApi: seq<Method> := [
    StateCall, StateReplay, StateMarketBalance, StateMarketDeals, StateGetReceipt,
    StateWaitMsg, StateNetworkName, StateNetworkVersion
  ]
  const GasApi: seq<Method> := [
    GasEstimateGasLimit, GasEstimateGasPremium, GasEstimateFeeCap, GasEstimateMessageGas
  ]
  const CommonApi: seq<Method> := [Version]
  const NetApi: seq<Method> := [NetAddrsListen, NetPeers, NetConnect, NetDisconnect]

  /** All registered methods, in insertion order. */
  const Registered: seq<Method> :=
    AuthApi + BeaconApi + ChainApi + MpoolApi + SyncApi + WalletApi + StateApi + GasApi + CommonApi + NetApi

  /** Every method is registered. */
  lemma RegisteredComplete(m: Method)
    ensures m in Registered
  {
  }

  /** The first method in `ms` with the given name. */
  function Find(ms: seq<Method>, name: string): (r: Option<Method>)
    ensures r.Some? ==> r.value in ms && Name(r.value) == name
    ensures r.None? ==> forall i :: 0 <= i < |ms| ==> Name(ms[i]) != name
    decreases |ms|
  {
    if |ms| == 0 then None
    else if Name(ms[0]) == name then Some(ms[0])
    else Find(ms[1..], name)
  }

  lemma Unregistered(name: string)
    requires Find(Registered, name).None?
    ensures forall m: Method :: Name(m) != name
  {
    forall m: Method ensures Name(m) != name {
      RegisteredComplete(m);
    }
  }

  /** Whether a name starts with `Filecoin.`. */
  predicate InFilecoinNamespace(name: string)
  {
    |name| >= |Namespace| && name[..|Namespace|] == Namespace
  }

  /** A lookup in `ACCESS_MAP`: the level of the method with that name, and
      no entry at all for a name that was never inserted; in particular a
      name outside the `Filecoin.` namespace has no entry. */
  function RequiredAccess(name: string): (r: Option<Access>)
    ensures r.None? <==> forall m: Method :: Name(m) != name
    ensures r.Some? ==> exists m: Method :: Name(m) == name && r.value == Level(m)
    ensures !InFilecoinNamespace(name) ==> r.None?
  {
    match Find(Registered, name)
    case None =>
      Unregistered(name);
      None
    case Some(m) =>
      assert name[..|Namespace|] == Namespace;
      Some(Level(m))
  }

  /** Exactly `AuthNew`, `SyncMarkBad`, `WalletExport` and `WalletImport`
      require `Admin`. */
  lemma AdminMethods(m: Method)
    ensures Level(m) == Admin <==> m in {AuthNew, SyncMarkBad, WalletExport, WalletImport}
  {
  }

  /** Exactly `MpoolPushMessage` and `WalletSign` require `Sign`. */
  lemma SignMethods(m: Method)
    ensures Level(m) == Sign <==> m in {MpoolPushMessage, WalletSign}
  {
  }
}
