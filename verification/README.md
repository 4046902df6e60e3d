# Forest translation and lookup routines, in Dafny

This project models the small pure routines of the Forest Filecoin node that
translate between representations or look values up in fixed tables:

- the JSON form of a drand **beacon entry** (`{"Round": u64, "Data": base64}`),
  over a model of padded standard Base64 (section 4 of RFC 4648);
- the **sector-size parser** `ram_to_int` of `forest fetch-params` and the
  command's choice between `--all`, a size and `--keys`;
- the **JSON-RPC client's** endpoint derivation: the fold of a multiaddr into
  `proto://host:port/rpc/v0`, the split of `FULLNODE_API_INFO` into token and
  address, the choice of the `Authorization` header, and the mapping of the
  HTTP status and response envelope to a result;
- the **JSON-RPC access table** (`ACCESS_MAP`) and the claim check `check_access`;
- the **Bitswap request decoder**: the translation of a decoded protobuf
  message into the ordered list of requests, blocks and presences, and the
  single-message rule of `write_request`;
- the **versioned actor-state loaders** of the market and init actors, which
  pick the v8 or v9 state type from the actor's code CID.

Everything is a pure function over immutable datatypes. Foreign code (protobuf
decoding, CID and multihash parsing, the blockstore, the v8/v9 actor crates,
header-value rendering of HTTP statuses) is passed in as function-typed
parameters or as values; I/O (environment, HTTP, streams) is replaced by the
values it would produce.

Files:

| file | module | contents |
|---|---|---|
| `results.dfy` | `Results` | `Option`, `Result`, `byte`, `u16`, `u64` |
| `base64.dfy` | `Base64` | padded standard Base64, both round trips |
| `decimal.dfy` | `Decimal` | decimal rendering of naturals and its inverse |
| `beacon_entries.dfy` | `BeaconEntries` | beacon entry and its JSON codec |
| `fetch_params.dfy` | `FetchParams` | sector sizes, `ram_to_int`, option selection |
| `rpc_client.dfy` | `RpcClient` | URL fold, API info split, headers, response mapping |
| `rpc_access.dfy` | `RpcAccess` | access levels, `ACCESS_MAP`, `check_access` |
| `bitswap_codec.dfy` | `BitswapCodec` | `read_request` translation, `write_request` rule |
| `actor_dispatch.dfy` | `ActorDispatch` | the shared v8-then-v9 state load |
| `market_actor.dfy` | `MarketActor` | market code CIDs, `load`, `total_locked` |
| `init_actor.dfy` | `InitActor` | init code CIDs, `load`, `into_network_name` |

Notes on the model:

- Base64: the `BASE64_STANDARD` engine of the `base64` crate pads on encode
  and, on decode, requires canonical padding and zero unused trailing bits.
  That is what `Base64.Decode` accepts, and it makes decoding the exact
  inverse of encoding.
- CIDs of actor code are compared by their canonical base32 text. Parsing the
  text into a CID is foreign and is taken to be injective on canonical text.
- Bitswap enum values come from the Bitswap 1.2 protobuf schema: want type
  `Block = 0`, `Have = 1`; presence type `Have = 0`, `DontHave = 1`.
- A multiaddr is a sequence of `RpcClient.Protocol` components whose addresses
  carry their `to_string` rendering. An `Ip6` host is placed in the URL
  without brackets, as the source does.
- The JSON-RPC method names are an enumeration `RpcAccess.Method`; a wire name
  is `Filecoin.` followed by `RpcAccess.Suffix`, and `RpcAccess.Level` holds
  the entries of `ACCESS_MAP`.

## Model

| member | source | states |
|---|---|---|
| BeaconEntries.New | blockchain/beacon/src/beacon_entries.rs:10-28 | `round()` and `data()` return exactly the values given to `new`; two entries are equal exactly when round and data are equal |
| BeaconEntries.Serialize | blockchain/beacon/src/beacon_entries.rs:70-79 | `Round` is copied unchanged; `Data` has a length that is a multiple of four and decodes under padded standard Base64 to the entry's data |
| BeaconEntries.Deserialize | blockchain/beacon/src/beacon_entries.rs:81-90 | fails exactly when `Data` is the Base64 encoding of no byte string; on success the round is kept and the data is the bytes whose encoding is `Data` |
| BeaconEntries.SerializeRoundTrip | blockchain/beacon/src/beacon_entries.rs:123-128 | deserializing the serialization of any entry gives back an equal entry |
| BeaconEntries.DeserializeRoundTrip | blockchain/beacon/src/beacon_entries.rs:81-90 | a JSON object that deserializes is the serialization of its result, so each entry has one JSON form |
| BeaconEntries.SerializeExample | blockchain/beacon/src/beacon_entries.rs:74-77 | round 7 with data `sig7` serializes to `{"Round": 7, "Data": "c2lnNw=="}` |
| BeaconEntries.SerializeVec | blockchain/beacon/src/beacon_entries.rs:97-106 | one JSON element per entry, same length and order, each the entry's serialization |
| BeaconEntries.DeserializeVec | blockchain/beacon/src/beacon_entries.rs:108-113 | an array reads back only if every element does, element by element; otherwise some element fails |
| BeaconEntries.SerializeVecRoundTrip | blockchain/beacon/src/beacon_entries.rs:97-113 | reading back a serialized vector gives the same entries |
| Base64.AlphabetTable | blockchain/beacon/src/beacon_entries.rs:76 | the 64-character table is a bijection onto `A-Z a-z 0-9 + /` |
| Base64.Encode | blockchain/beacon/src/beacon_entries.rs:76 | the encoding has four characters for every started group of three bytes |
| Base64.Decode | blockchain/beacon/src/beacon_entries.rs:88 | a decoded input has exactly the length the encoding of its result has |
| Base64.DecodeEncode | blockchain/beacon/src/beacon_entries.rs:76-88 | decoding the encoding of any byte string gives that byte string |
| Base64.EncodeDecode | blockchain/beacon/src/beacon_entries.rs:76-88 | any string that decodes is the encoding of what it decodes to |
| Base64.DecodeFailsIffNotEncoding | blockchain/beacon/src/beacon_entries.rs:88 | decoding fails exactly on the strings that are no encoding |
| Decimal.ToString | node/rpc-client/src/lib.rs:136-139 | the rendering of a number is a non-empty digit string with a leading zero only for zero |
| Decimal.ValueOfToString | node/rpc-client/src/lib.rs:136-139 | reading back the decimal rendering of `n` gives `n` |
| Decimal.ToStringInjective | node/rpc-client/src/lib.rs:136-139 | distinct numbers render differently |
| FetchParams.BytesArePowersOfTwo | forest/cli/src/cli/fetch_params_cmd.rs:54-58 | the five sizes are 2^11, 2^23, 2^29, 2^35 and 2^36 bytes |
| FetchParams.DecimalAliases | forest/cli/src/cli/fetch_params_cmd.rs:54-58 | each decimal alias is the decimal numeral of its size's byte count |
| FetchParams.AliasesSpelled | forest/cli/src/cli/fetch_params_cmd.rs:53-58 | each size's aliases are its byte count, `<n>Ki/Mi/Gi`, and the same with a lower-case prefix letter |
| FetchParams.TrimUnit | forest/cli/src/cli/fetch_params_cmd.rs:50-51 | the result is a prefix of the input; what was removed is a run of `b`s followed by a run of `B`s; the result does not end in `b`, and ends in `B` only when a `b` followed it |
| FetchParams.TrimEnd | forest/cli/src/cli/fetch_params_cmd.rs:50-51 | the result is a prefix of the input, does not end in the character, and only that character was removed |
| FetchParams.RamToInt | forest/cli/src/cli/fetch_params_cmd.rs:47-63 | a parse succeeds only with a size one of whose aliases is the trimmed text; a failure means no size has the trimmed text as alias, with the message naming the input |
| FetchParams.AliasesDisjoint | forest/cli/src/cli/fetch_params_cmd.rs:53-58 | no text is an alias of two sizes |
| FetchParams.ParsesEveryAlias | forest/cli/src/cli/fetch_params_cmd.rs:50-58 | every alias followed by any run of `B`s or of `b`s parses to its size |
| FetchParams.ParsesAliasWithUnit | forest/cli/src/cli/fetch_params_cmd.rs:50-58 | every alias parses to its size bare, with `B` and with `b` |
| FetchParams.RamToIntExamples2KiB | forest/cli/src/cli/fetch_params_cmd.rs:71-73 | `2048`, `2048B` and `2kib` parse to 2 KiB |
| FetchParams.RamToIntExamplesMiB | forest/cli/src/cli/fetch_params_cmd.rs:74-75 | `8Mib` parses to 8 MiB and `512MiB` to 512 MiB |
| FetchParams.RamToIntExamplesGiB | forest/cli/src/cli/fetch_params_cmd.rs:76-78 | `32Gi` and `32GiB` parse to 32 GiB and `64Gib` to 64 GiB |
| FetchParams.TrimOrderMatters | forest/cli/src/cli/fetch_params_cmd.rs:50-51 | `B`s are trimmed before `b`s: `2KibB` parses, `2KiBb` does not |
| FetchParams.SelectSizes | forest/cli/src/cli/fetch_params_cmd.rs:28-40 | `--all` wins; otherwise a given size is parsed, and its parse error is the command's error; otherwise `--keys`; with none of them the command dies with status 1 and the fixed message |
| RpcClient.Step | node/rpc-client/src/lib.rs:99-131 | a host component sets the host, a `Tcp` component the port, an `Http`/`Https` component the scheme; every other field, and every field for any other component, is unchanged |
| RpcClient.StepOverrides | node/rpc-client/src/lib.rs:99-131 | of two components of the same kind, the later one decides the field |
| RpcClient.StepCommutes | node/rpc-client/src/lib.rs:99-131 | components of different kinds can be applied in either order |
| RpcClient.Fold | node/rpc-client/src/lib.rs:94-133 | the scheme is always `http` or `https`; the host and port are the defaults or come from a component of the matching kind |
| RpcClient.FoldHostIsLast | node/rpc-client/src/lib.rs:94-119 | the host is that of the last Ip4/Ip6/Dns/Dns4/Dns6/Dnsaddr component, or `127.0.0.1` when there is none |
| RpcClient.FoldPortIsLast | node/rpc-client/src/lib.rs:94-122 | the port is that of the last Tcp component, or 1234 when there is none |
| RpcClient.FoldSchemeIsLast | node/rpc-client/src/lib.rs:94-128 | the scheme is that of the last Http/Https component, or `http`; it is always `http` or `https` |
| RpcClient.FoldSkipsOther | node/rpc-client/src/lib.rs:129 | components the fold does not recognise leave the accumulated URL unchanged |
| RpcClient.MultiaddressToUrl | node/rpc-client/src/lib.rs:92-142 | the URL reads back, as `proto://host:port/rpc/v0`, into exactly the scheme, host and port of the fold |
| RpcClient.Render | node/rpc-client/src/lib.rs:136-139 | the URL starts with the scheme, `://` and the host, ends with `/rpc/v0`, and has the length of its parts |
| RpcClient.ParseRender | node/rpc-client/src/lib.rs:136-139 | the URL format is unambiguous: splitting at `://` and at the last `:` recovers scheme, host and port |
| RpcClient.DefaultUrls | node/rpc-client/src/lib.rs:26-31 | the empty multiaddr and `/ip4/127.0.0.1/tcp/1234/http` both give `DEFAULT_URL` |
| RpcClient.SplitApiInfo | node/rpc-client/src/lib.rs:50-58 | a token exists exactly when the value has a `:`; then the value is token, `:`, address, and the token has no `:`; otherwise the whole value is the address |
| RpcClient.LoadApiInfo | node/rpc-client/src/lib.rs:45-60 | the value of the variable, or the default multiaddr when unset, is split at its first `:`; the address part is parsed into the stored components and the token part is stored; a failed parse is the `Parse multiaddress` error; with the variable unset there is no token |
| RpcClient.DefaultHasNoToken | node/rpc-client/src/lib.rs:47-57 | the default multiaddr has no `:`, so it is all address and no token |
| RpcClient.SplitApiInfoJoin | node/rpc-client/src/lib.rs:50-58 | joining token and address with `:` gives back the original value |
| RpcClient.SplitApiInfoOfToken | node/rpc-client/src/lib.rs:50-58 | a `:`-free token, `:` and an address split back into exactly that token and address |
| RpcClient.RequestHeaders | node/rpc-client/src/lib.rs:164-175 | the content type is always sent; a stored token is sent in preference to the caller's; the caller's token only without a stored one; no header without either; a token that is not a valid header value is an error |
| RpcClient.PrepareRequest | node/rpc-client/src/lib.rs:155-175 | the request goes to the URL that reads back into the fold of the stored components, with the headers above; it fails exactly when the headers do |
| RpcClient.DefaultEndpoint | node/rpc-client/src/lib.rs:45-60 | with the variable unset and the default multiaddr parsing to `/ip4/127.0.0.1/tcp/1234/http`, requests go to `DEFAULT_URL` without a stored token |
| RpcClient.MapResponse | node/rpc-client/src/lib.rs:198-205 | a result envelope gives `Ok` of its result; an error envelope gives an error with the same code and message |
| RpcClient.HandleResponse | node/rpc-client/src/lib.rs:176-205 | a status outside 200-299 is an error whose code is the status; an unparsable body is a parse error; otherwise the envelope is mapped |
| RpcAccess.CheckAccess | node/rpc-api/src/lib.rs:95-102 | a level is granted exactly when the claims contain its exact lower-case name |
| RpcAccess.ClaimNamesDistinct | node/rpc-api/src/lib.rs:96-101 | no two levels share a claim name |
| RpcAccess.NoHierarchy | node/rpc-api/src/lib.rs:96-101 | a single claim grants only its own level: `admin` alone does not grant `Read` |
| RpcAccess.EmptyClaimsRejected | node/rpc-api/src/lib.rs:95-102 | an empty claim list grants no level |
| RpcAccess.RegisteredComplete | node/rpc-api/src/lib.rs:19-92 | every method constant is inserted into the table |
| RpcAccess.RequiredAccess | node/rpc-api/src/lib.rs:19-390 | a name has an entry exactly when it is the name of a registered method, and then the entry is that method's level; every registered name begins with `Filecoin.`, so a name without that prefix has no entry |
| RpcAccess.AdminMethods | node/rpc-api/src/lib.rs:23-59 | exactly `AuthNew`, `SyncMarkBad`, `WalletExport` and `WalletImport` require Admin |
| RpcAccess.SignMethods | node/rpc-api/src/lib.rs:47-63 | exactly `MpoolPushMessage` and `WalletSign` require Sign |
| BitswapCodec.RequestTypeOf | node/forest_libp2p/bitswap/src/internals/codec.rs:37-44 | want type Have gives `Have`, Block gives `Block`, and nothing else gives a type |
| BitswapCodec.Entries | node/forest_libp2p/bitswap/src/internals/codec.rs:31-50 | the wantlist yields at most one message per entry, all of them requests |
| BitswapCodec.EntriesFailure | node/forest_libp2p/bitswap/src/internals/codec.rs:33-36 | the wantlist fails exactly when a non-cancelled entry has a bad CID, and with the first such entry's error |
| BitswapCodec.EntriesAppend | node/forest_libp2p/bitswap/src/internals/codec.rs:31-50 | translating `a + b` is translating `a` then `b`, stopping at the first error |
| BitswapCodec.EntrySingle | node/forest_libp2p/bitswap/src/internals/codec.rs:33-49 | a cancelled entry or one of unknown type yields nothing; a wanted one yields its request; a bad CID is an error even before the type is checked |
| BitswapCodec.EntriesOrigin | node/forest_libp2p/bitswap/src/internals/codec.rs:45-49 | every request carries the type, CID and `send_dont_have` of a wanted entry |
| BitswapCodec.Payloads | node/forest_libp2p/bitswap/src/internals/codec.rs:51-58 | fails exactly when some prefix or computed CID fails; otherwise one block response per payload, in order, under the CID the prefix computes |
| BitswapCodec.HaveOf | node/forest_libp2p/bitswap/src/internals/codec.rs:61-68 | presence Have gives `true`, DontHave gives `false`, and nothing else gives a value |
| BitswapCodec.Presences | node/forest_libp2p/bitswap/src/internals/codec.rs:59-70 | fails exactly when some CID fails; otherwise only presence responses, one per presence exactly when every type is known |
| BitswapCodec.PresencesAppend | node/forest_libp2p/bitswap/src/internals/codec.rs:59-71 | translating the presences `a + b` is translating `a` then `b`, stopping at the first error |
| BitswapCodec.PresencesOrigin | node/forest_libp2p/bitswap/src/internals/codec.rs:59-70 | every presence response carries the CID of a presence of known type and `Have(true)` for Have, `Have(false)` for DontHave |
| BitswapCodec.PresenceSingle | node/forest_libp2p/bitswap/src/internals/codec.rs:59-69 | Have gives `Have(true)`, DontHave gives `Have(false)`, any other type nothing |
| BitswapCodec.ReadRequest | node/forest_libp2p/bitswap/src/internals/codec.rs:9-72 | a frame over 2 MiB is refused; a success is the requests, then the blocks, then the presences; after a good decode it fails exactly when some entry, payload or presence fails |
| BitswapCodec.ReadRequestShape | node/forest_libp2p/bitswap/src/internals/codec.rs:31-71 | a successful read is ordered requests, blocks, presences, with at most one message per entry, payload and presence |
| BitswapCodec.WriteRequest | node/forest_libp2p/bitswap/src/internals/codec.rs:96-101 | writing needs exactly one message and sends its serialization |
| ActorDispatch.Require | vm/actor_interface/src/builtin/market/mod.rs:60-63 | a missing object is the missing-state error; a store error is passed through; a found object is returned |
| ActorDispatch.LoadVersioned | vm/actor_interface/src/builtin/market/mod.rs:55-72 | a v8 code reads v8 state, else a v9 code reads v9 state, else the unknown-code error |
| MarketActor.KnownCodes | vm/actor_interface/src/builtin/market/mod.rs:24-44 | `is_v8_market_cid` holds for exactly the three listed CIDs, `is_v9_market_cid` for exactly the two |
| MarketActor.VersionsDisjoint | vm/actor_interface/src/builtin/market/mod.rs:24-44 | no code is both v8 and v9 |
| MarketActor.Load | vm/actor_interface/src/builtin/market/mod.rs:55-72 | a loaded state is `V8` exactly for v8 codes and `V9` exactly for v9 codes, holding the stored state; missing state and unknown codes are errors |
| MarketActor.TotalLocked | vm/actor_interface/src/builtin/market/mod.rs:107-112 | the wrapped state's own total, for either version |
| MarketActor.LoadedTotalLocked | vm/actor_interface/src/builtin/market/mod.rs:107-112 | after a load, the total is that of the state stored under the actor's state CID, read with the version its code names |
| InitActor.KnownCodes | vm/actor_interface/src/builtin/init/mod.rs:19-39 | `is_v8_init_cid` holds for exactly the three listed CIDs, `is_v9_init_cid` for exactly the two |
| InitActor.VersionsDisjoint | vm/actor_interface/src/builtin/init/mod.rs:19-39 | no code is both v8 and v9 |
| InitActor.Load | vm/actor_interface/src/builtin/init/mod.rs:49-67 | a loaded state is `V8` exactly for v8 codes and `V9` exactly for v9 codes, holding the stored state; missing state and unknown codes are errors |
| InitActor.IntoNetworkName | vm/actor_interface/src/builtin/init/mod.rs:68-74 | the wrapped state's network name, for either version |
| InitActor.LoadedNetworkName | vm/actor_interface/src/builtin/init/mod.rs:49-74 | after a load, the name is that of the state stored under the actor's state CID |

## Left out

- `blockchain/consensus/fil_cns/src/lib.rs`: a façade whose weight and validation bodies are not part of this model; its error enum has no behaviour.
- `forest/cli/src/cli/state_cmd.rs`: its `run` does nothing.
- I/O and async plumbing: the environment read, the HTTP exchange, length-prefixed stream reads and writes, metrics counters, parameter downloads, and the `Lazy`/`RwLock` globals; their results are parameters.
- Foreign libraries: protobuf decoding, `Cid::try_from`, `Prefix::new`/`to_cid`, IP and DNS `to_string`, multiaddr text parsing (a parameter of `RpcClient.LoadApiInfo`), blockstore `get_obj`, the v8/v9 actor crates' `total_locked`, and JSON text syntax (the JSON object is a record).
- The `unimplemented!()` market methods (`escrow_table`, `locked_table`, `proposals`, `states`, `verify_deals_for_activation`): they have no behaviour.
- JWT signing and verification, and the argument parsing of `structopt` (`required_ifs`).
- The JSON-RPC request body (`RequestObject`, method name and parameters) and the failure of `hyper::Request::post` on a URL it cannot parse.
- BeaconEntries.DeserializeVec: the `GoVecVisitor` behind the source's vector deserializer is not part of this model; the model reads an array element by element and does not cover any other JSON shape the visitor accepts.
- BeaconEntries.Deserialize: the error text of a Base64 failure is the `base64` crate's message; the model uses a fixed message.
- RpcClient.HandleResponse: the display text of an HTTP status and the parser's error text are parameters, and the conversion of the parse-error string into the client's error type is modelled as a separate error variant.
- RpcAccess.RequiredAccess: does not prove that looking up a registered method's own name returns that method's level, because that needs the 49 name strings to be pairwise distinct, which is not proved.
- BitswapCodec.WriteRequest: the assertion of the source panics on more or fewer than one message; the model makes this a precondition.
