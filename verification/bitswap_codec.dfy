/** The Bitswap request codec: the translation of a decoded protobuf
    `Message` into the ordered list of Bitswap messages, and the single-message
    rule for writing. Protobuf decoding, CID parsing and the multihash prefix
    are foreign; they are passed in as functions. */
module BitswapCodec {
  import opened Results

  /** The largest frame accepted on read: 2 MiB, the Bitswap block-size limit. */
  const MaxBufSize: nat := 1024 * 1024 * 2

  // Protobuf enum values of the Bitswap 1.2 `message.proto`.
  const WantTypeBlock: int := 0
  const WantTypeHave: int := 1
  const PresenceHave: int := 0
  const PresenceDontHave: int := 1

  // ---------------------------------------------------------------------------
  // The decoded protobuf message

  datatype Entry = Entry(block: seq<byte>, priority: int, cancel: bool, wantType: int, sendDontHave: bool)
  datatype Wantlist = Wantlist(entries: seq<Entry>, full: bool)
  datatype Payload = Payload(prefix: seq<byte>, data: seq<byte>)
  datatype BlockPresence = BlockPresence(cid: seq<byte>, presenceType: int)
  datatype PbMessage = PbMessage(
    wantlist: Option<Wantlist>,
    blocks: seq<seq<byte>>,
    payload: seq<Payload>,
    blockPresences: seq<BlockPresence>,
    pendingBytes: int)

  // ---------------------------------------------------------------------------
  // Foreign values and the translated messages

  /** A content identifier, by its binary form. */
  datatype Cid = Cid(bytes: seq<byte>)

  /** The CID prefix of a payload block: version, codec, hash function and
      digest length. */
  datatype Prefix = Prefix(version: nat, codec: nat, mhType: nat, mhLen: nat)

  /** The foreign parsers the translation calls: `Cid::try_from`,
      `Prefix::new` and `Prefix::to_cid`. Their errors are messages. */
  datatype Parsers = Parsers(
    parseCid: seq<byte> -> Result<Cid, string>,
    parsePrefix: seq<byte> -> Result<Prefix, string>,
    toCid: (Prefix, seq<byte>) -> Result<Cid, string>)

  datatype RequestType = Have | Block
  datatype BitswapRequest = BitswapRequest(ty: RequestType, cid: Cid, sendDontHave: bool)
  /** A response: whether the peer has the block, or the block's data. */
  datatype BitswapResponse = HaveBlock(have: bool) | BlockData(data: seq<byte>)
  datatype BitswapMessage = Request(request: BitswapRequest) | Response(cid: Cid, response: BitswapResponse)

  // ---------------------------------------------------------------------------
  // Wantlist entries

  /** The request type of a protobuf want type; `None` for any other value. */
  function RequestTypeOf(wantType: int): (ty: Option<RequestType>)
    ensures ty == Some(Have) <==> wantType == WantTypeHave
    ensures ty == Some(Block) <==> wantType == WantTypeBlock
  {
    if wantType == WantTypeHave then Some(Have)
    else if wantType == WantTypeBlock then Some(Block)
    else None
  }

  /** An entry that aborts the decode: not cancelled, and its CID does not parse.
      The CID is parsed before the want type is looked at. */
  predicate EntryFails(e: Entry, p: Parsers)
  {
    !e.cancel && p.parseCid(e.block).Err?
  }

  /** An entry that yields a request. */
  predicate EntryWanted(e: Entry, p: Parsers)
  {
    !e.cancel && p.parseCid(e.block).Ok? && RequestTypeOf(e.wantType).Some?
  }

  /** The request an entry yields: its type, its CID, and its `send_dont_have`. */
  function RequestOf(e: Entry, p: Parsers): BitswapMessage
    requires EntryWanted(e, p)
  {
    Request(BitswapRequest(RequestTypeOf(e.wantType).value, p.parseCid(e.block).value, e.sendDontHave))
  }

  /** The wantlist loop of `read_request`: cancelled entries and unknown want
      types produce nothing; a CID failure aborts. */
  function Entries(entries: seq<Entry>, p: Parsers): (r: Result<seq<BitswapMessage>, string>)
    ensures r.Ok? ==> |r.value| <= |entries|
    ensures r.Ok? ==> forall k :: 0 <= k < |r.value| ==> r.value[k].Request?
    decreases |entries|
  {
    if |entries| == 0 then Ok([])
    else
      var e := entries[0];
      if e.cancel then Entries(entries[1..], p)
      else match p.parseCid(e.block)
        case Err(msg) => Err(msg)
        case Ok(cid) =>
          match RequestTypeOf(e.wantType)
          case None => Entries(entries[1..], p)
          case Some(ty) =>
            match Entries(entries[1..], p)
            case Err(msg) => Err(msg)
            case Ok(tail) => Ok([Request(BitswapRequest(ty, cid, e.sendDontHave))] + tail)
  }

  /** The wantlist translation fails exactly when some entry fails, and then
      with the error of the first failing entry. */
  lemma {:induction false} EntriesFailure(entries: seq<Entry>, p: Parsers)
    ensures Entries(entries, p).Err? <==> exists i :: 0 <= i < |entries| && EntryFails(entries[i], p)
    ensures Entries(entries, p).Err? ==>
              exists i :: 0 <= i < |entries| && EntryFails(entries[i], p)
                          && Entries(entries, p).error == p.parseCid(entries[i].block).error
                          && forall j :: 0 <= j < i ==> !EntryFails(entries[j], p)
    decreases |entries|
  {
    if |entries| > 0 {
      var rest := entries[1..];
      EntriesFailure(rest, p);
      assert forall j :: 0 <= j < |rest| ==> rest[j] == entries[j + 1];
      if Entries(entries, p).Err? && !EntryFails(entries[0], p) {
        var i :| 0 <= i < |rest| && EntryFails(rest[i], p)
                 && Entries(rest, p).error == p.parseCid(rest[i].block).error
                 && forall j :: 0 <= j < i ==> !EntryFails(rest[j], p);
        assert EntryFails(entries[i + 1], p);
        assert forall j :: 1 <= j < i + 1 ==> !EntryFails(entries[j], p);
      }
      if !Entries(entries, p).Err? {
        assert !EntryFails(entries[0], p);
        forall i | 0 <= i < |entries| ensures !EntryFails(entries[i], p) {
          if i > 0 {
            assert entries[i] == rest[i - 1];
          }
        }
      }
    }
  }

  /** Two partial translations in sequence: the first error, or both outputs
      one after the other. */
  function Join(x: Result<seq<BitswapMessage>, string>, y: Result<seq<BitswapMessage>, string>): Result<seq<BitswapMessage>, string>
  {
    match x
    case Err(msg) => Err(msg)
    case Ok(xs) =>
      match y
      case Err(msg) => Err(msg)
      case Ok(ys) => Ok(xs + ys)
  }

  /** What one entry contributes in front of the translation of the rest. */
  function EntryCons(e: Entry, rest: Result<seq<BitswapMessage>, string>, p: Parsers): Result<seq<BitswapMessage>, string>
  {
    if e.cancel then rest
    else if EntryFails(e, p) then Err(p.parseCid(e.block).error)
    else if !EntryWanted(e, p) then rest
    else Join(Ok([RequestOf(e, p)]), rest)
  }

  lemma EntriesUnfold(entries: seq<Entry>, p: Parsers)
    requires |entries| > 0
    ensures Entries(entries, p) == EntryCons(entries[0], Entries(entries[1..], p), p)
  {
  }

  lemma EntryConsJoin(e: Entry, x: Result<seq<BitswapMessage>, string>, y: Result<seq<BitswapMessage>, string>, p: Parsers)
    ensures EntryCons(e, Join(x, y), p) == Join(EntryCons(e, x, p), y)
  {
    if EntryWanted(e, p) && x.Ok? && y.Ok? {
      assert [RequestOf(e, p)] + (x.value + y.value) == ([RequestOf(e, p)] + x.value) + y.value;
    }
  }

  /** The wantlist translation is the concatenation of its parts: translating
      `a + b` is translating `a`, then `b`, stopping at the first error. */
  lemma {:induction false} EntriesAppend(a: seq<Entry>, b: seq<Entry>, p: Parsers)
    ensures Entries(a + b, p) == Join(Entries(a, p), Entries(b, p))
    decreases |a|
  {
    if |a| == 0 {
      assert a + b == b;
      if Entries(b, p).Ok? {
        assert [] + Entries(b, p).value == Entries(b, p).value;
      }
    } else {
      assert (a + b)[0] == a[0];
      assert (a + b)[1..] == a[1..] + b;
      EntriesUnfold(a + b, p);
      EntriesUnfold(a, p);
      EntriesAppend(a[1..], b, p);
      EntryConsJoin(a[0], Entries(a[1..], p), Entries(b, p), p);
    }
  }

  /** One entry on its own: cancelled or of an unknown type it yields nothing;
      otherwise its request, or its CID error. */
  lemma EntrySingle(e: Entry, p: Parsers)
    ensures e.cancel ==> Entries([e], p) == Ok([])
    ensures EntryFails(e, p) ==> Entries([e], p) == Err(p.parseCid(e.block).error)
    ensures !e.cancel && p.parseCid(e.block).Ok? && RequestTypeOf(e.wantType).None? ==> Entries([e], p) == Ok([])
    ensures EntryWanted(e, p) ==> Entries([e], p) == Ok([RequestOf(e, p)])
  {
    assert [e][1..] == [];
    if EntryWanted(e, p) {
      assert [RequestOf(e, p)] + [] == [RequestOf(e, p)];
    }
  }

  /** Each request comes from a wanted entry and carries that entry's type,
      CID and `send_dont_have`. */
  /** `m` is the request of some wanted entry of `entries`. */
  predicate FromEntry(m: BitswapMessage, entries: seq<Entry>, p: Parsers)
  {
    exists i :: 0 <= i < |entries| && EntryWanted(entries[i], p) && m == RequestOf(entries[i], p)
  }

  lemma FromEntryOfRest(m: BitswapMessage, entries: seq<Entry>, p: Parsers)
    requires |entries| > 0 && FromEntry(m, entries[1..], p)
    ensures FromEntry(m, entries, p)
  {
    var i :| 0 <= i < |entries[1..]| && EntryWanted(entries[1..][i], p) && m == RequestOf(entries[1..][i], p);
    assert entries[i + 1] == entries[1..][i];
  }

  lemma {:induction false} EntriesOrigin(entries: seq<Entry>, p: Parsers)
    requires Entries(entries, p).Ok?
    ensures forall k :: 0 <= k < |Entries(entries, p).value| ==> FromEntry(Entries(entries, p).value[k], entries, p)
    decreases |entries|
  {
    if |entries| > 0 {
      var rest := entries[1..];
      EntriesUnfold(entries, p);
      assert Entries(rest, p).Ok?;
      EntriesOrigin(rest, p);
      var out := Entries(entries, p).value;
      var tail := Entries(rest, p).value;
      var skip := if EntryWanted(entries[0], p) then 1 else 0;
      assert EntryWanted(entries[0], p) ==> out == [RequestOf(entries[0], p)] + tail;
      assert !EntryWanted(entries[0], p) ==> out == tail;
      assert |out| == skip + |tail|;
      forall k | 0 <= k < |out|
        ensures FromEntry(out[k], entries, p)
      {
        if k < skip {
          assert out[k] == RequestOf(entries[0], p);
        } else {
          assert out[k] == tail[k - skip];
          FromEntryOfRest(out[k], entries, p);
        }
      }
    }
  }

  // ---------------------------------------------------------------------------
  // Payload blocks

  /** A payload that aborts the decode: its prefix, or the CID computed from the
      prefix and the data, does not parse. */
  predicate PayloadFails(b: Payload, p: Parsers)
  {
    p.parsePrefix(b.prefix).Err? || p.toCid(p.parsePrefix(b.prefix).value, b.data).Err?
  }

  /** The payload loop: every block becomes a response carrying its data under
      the CID its prefix computes. */
  function Payloads(payloads: seq<Payload>, p: Parsers): (r: Result<seq<BitswapMessage>, string>)
    ensures r.Err? <==> exists i :: 0 <= i < |payloads| && PayloadFails(payloads[i], p)
    ensures r.Ok? ==> |r.value| == |payloads|
    ensures r.Ok? ==> forall k :: 0 <= k < |payloads| ==>
              r.value[k] == Response(p.toCid(p.parsePrefix(payloads[k].prefix).value, payloads[k].data).value,
                                     BlockData(payloads[k].data))
    decreases |payloads|
  {
    if |payloads| == 0 then Ok([])
    else
      var b := payloads[0];
      match p.parsePrefix(b.prefix)
      case Err(msg) => Err(msg)
      case Ok(prefix) =>
        match p.toCid(prefix, b.data)
        case Err(msg) => Err(msg)
        case Ok(cid) =>
          match Payloads(payloads[1..], p)
          case Err(msg) =>
            assert exists i :: 0 <= i < |payloads[1..]| && PayloadFails(payloads[1..][i], p);
            Err(msg)
          case Ok(tail) =>
            assert forall i :: 1 <= i < |payloads| ==> payloads[i] == payloads[1..][i - 1];
            Ok([Response(cid, BlockData(b.data))] + tail)
  }

  // ---------------------------------------------------------------------------
  // Block presences

  predicate PresenceFails(q: BlockPresence, p: Parsers)
  {
    p.parseCid(q.cid).Err?
  }

  /** Whether a presence type reports the block as present; `None` for any
      other value. */
  function HaveOf(presenceType: int): (have: Option<bool>)
    ensures have == Some(true) <==> presenceType == PresenceHave
    ensures have == Some(false) <==> presenceType == PresenceDontHave
  {
    if presenceType == PresenceHave then Some(true)
    else if presenceType == PresenceDontHave then Some(false)
    else None
  }

  /** The presence loop: `Have` becomes `Have(true)`, `DontHave` becomes
      `Have(false)`, other types are skipped after their CID is parsed. */
  function Presences(presences: seq<BlockPresence>, p: Parsers): (r: Result<seq<BitswapMessage>, string>)
    ensures r.Err? <==> exists i :: 0 <= i < |presences| && PresenceFails(presences[i], p)
    ensures r.Ok? ==> |r.value| <= |presences|
    ensures r.Ok? ==> forall k :: 0 <= k < |r.value| ==> r.value[k].Response? && r.value[k].response.HaveBlock?
    ensures r.Ok? ==> (|r.value| == |presences| <==>
                       forall i :: 0 <= i < |presences| ==> HaveOf(presences[i].presenceType).Some?)
    decreases |presences|
  {
    if |presences| == 0 then Ok([])
    else
      var q := presences[0];
      var rest := presences[1..];
      assert forall i :: 1 <= i < |presences| ==> presences[i] == rest[i - 1];
      match p.parseCid(q.cid)
      case Err(msg) => Err(msg)
      case Ok(cid) =>
        match Presences(rest, p)
        case Err(msg) =>
          assert exists i :: 0 <= i < |rest| && PresenceFails(rest[i], p);
          Err(msg)
        case Ok(tail) =>
          match HaveOf(q.presenceType)
          case None => Ok(tail)
          case Some(have) => Ok([Response(cid, HaveBlock(have))] + tail)
  }

  /** One presence on its own. */
  lemma PresenceSingle(q: BlockPresence, p: Parsers)
    requires !PresenceFails(q, p)
    ensures q.presenceType == PresenceHave ==>
              Presences([q], p) == Ok([Response(p.parseCid(q.cid).value, HaveBlock(true))])
    ensures q.presenceType == PresenceDontHave ==>
              Presences([q], p) == Ok([Response(p.parseCid(q.cid).value, HaveBlock(false))])
    ensures HaveOf(q.presenceType).None? ==> Presences([q], p) == Ok([])
  {
    assert [q][1..] == [];
    var m := Response(p.parseCid(q.cid).value, HaveBlock(q.presenceType == PresenceHave));
    assert [m] + [] == [m];
  }

  /** The response a presence of known type yields. */
  function PresenceMessage(q: BlockPresence, p: Parsers): BitswapMessage
    requires !PresenceFails(q, p) && HaveOf(q.presenceType).Some?
  {
    Response(p.parseCid(q.cid).value, HaveBlock(HaveOf(q.presenceType).value))
  }

  /** What one presence contributes in front of the translation of the rest. */
  function PresenceCons(q: BlockPresence, rest: Result<seq<BitswapMessage>, string>, p: Parsers)
    : Result<seq<BitswapMessage>, string>
  {
    if PresenceFails(q, p) then Err(p.parseCid(q.cid).error)
    else if HaveOf(q.presenceType).None? then rest
    else Join(Ok([PresenceMessage(q, p)]), rest)
  }

  lemma PresencesUnfold(presences: seq<BlockPresence>, p: Parsers)
    requires |presences| > 0
    ensures Presences(presences, p) == PresenceCons(presences[0], Presences(presences[1..], p), p)
  {
  }

  lemma PresenceConsJoin(q: BlockPresence, x: Result<seq<BitswapMessage>, string>, y: Result<seq<BitswapMessage>, string>, p: Parsers)
    ensures PresenceCons(q, Join(x, y), p) == Join(PresenceCons(q, x, p), y)
  {
    if !PresenceFails(q, p) && HaveOf(q.presenceType).Some? && x.Ok? && y.Ok? {
      assert [PresenceMessage(q, p)] + (x.value + y.value) == ([PresenceMessage(q, p)] + x.value) + y.value;
    }
  }

  /** The presence translation is the concatenation of its parts: translating
      `a + b` is translating `a`, then `b`, stopping at the first error. With
      `PresenceSingle` this fixes every element and the order of the output. */
  lemma {:induction false} PresencesAppend(a: seq<BlockPresence>, b: seq<BlockPresence>, p: Parsers)
    ensures Presences(a + b, p) == Join(Presences(a, p), Presences(b, p))
    decreases |a|
  {
    if |a| == 0 {
      assert a + b == b;
      if Presences(b, p).Ok? {
        assert [] + Presences(b, p).value == Presences(b, p).value;
      }
    } else {
      assert (a + b)[0] == a[0];
      assert (a + b)[1..] == a[1..] + b;
      PresencesUnfold(a + b, p);
      PresencesUnfold(a, p);
      PresencesAppend(a[1..], b, p);
      PresenceConsJoin(a[0], Presences(a[1..], p), Presences(b, p), p);
    }
  }

  /** `m` is the response of some presence of `presences` whose type is known. */
  predicate FromPresence(m: BitswapMessage, presences: seq<BlockPresence>, p: Parsers)
  {
    exists i :: 0 <= i < |presences| && !PresenceFails(presences[i], p) && HaveOf(presences[i].presenceType).Some?
                && m == PresenceMessage(presences[i], p)
  }

  lemma FromPresenceOfRest(m: BitswapMessage, presences: seq<BlockPresence>, p: Parsers)
    requires |presences| > 0 && FromPresence(m, presences[1..], p)
    ensures FromPresence(m, presences, p)
  {
    var i :| 0 <= i < |presences[1..]| && !PresenceFails(presences[1..][i], p)
             && HaveOf(presences[1..][i].presenceType).Some? && m == PresenceMessage(presences[1..][i], p);
    assert presences[i + 1] == presences[1..][i];
  }

  /** Each presence response comes from a presence of known type and carries
      that presence's CID and `have` value. */
  lemma {:induction false} PresencesOrigin(presences: seq<BlockPresence>, p: Parsers)
    requires Presences(presences, p).Ok?
    ensures forall k :: 0 <= k < |Presences(presences, p).value| ==>
              FromPresence(Presences(presences, p).value[k], presences, p)
    decreases |presences|
  {
    if |presences| > 0 {
      var q := presences[0];
      var rest := presences[1..];
      PresencesUnfold(presences, p);
      assert Presences(rest, p).Ok?;
      PresencesOrigin(rest, p);
      var out := Presences(presences, p).value;
      var tail := Presences(rest, p).value;
      var known := HaveOf(q.presenceType).Some?;
      var skip := if known then 1 else 0;
      assert known ==> out == [PresenceMessage(q, p)] + tail;
      assert !known ==> out == tail;
      assert |out| == skip + |tail|;
      forall k | 0 <= k < |out|
        ensures FromPresence(out[k], presences, p)
      {
        if k < skip {
          assert out[k] == PresenceMessage(presences[0], p);
        } else {
          assert out[k] == tail[k - skip];
          FromPresenceOfRest(out[k], presences, p);
        }
      }
    }
  }

  // ---------------------------------------------------------------------------
  // read_request and write_request

  datatype CodecError =
    | FrameTooLarge(length: nat)   // the length prefix exceeds the limit
    | Malformed(message: string)   // protobuf, CID or prefix failure

  /** `read_request` after the frame has been read: decode the protobuf, then
      the wantlist requests, the payload blocks and the presences, in that
      order; any failure makes the whole request an error. */
  function ReadRequest(frame: seq<byte>, decode: seq<byte> -> Result<PbMessage, string>, p: Parsers)
    : (r: Result<seq<BitswapMessage>, CodecError>)
    ensures |frame| > MaxBufSize ==> r == Err(FrameTooLarge(|frame|))
    ensures r.Ok? ==> |frame| <= MaxBufSize && decode(frame).Ok?
    ensures r.Ok? ==>
              var pb := decode(frame).value;
              var entries := if pb.wantlist.Some? then pb.wantlist.value.entries else [];
              && Entries(entries, p).Ok? && Payloads(pb.payload, p).Ok? && Presences(pb.blockPresences, p).Ok?
              && r.value == Entries(entries, p).value + Payloads(pb.payload, p).value
                            + Presences(pb.blockPresences, p).value
    ensures |frame| <= MaxBufSize && decode(frame).Ok? ==>
              var pb := decode(frame).value;
              var entries := if pb.wantlist.Some? then pb.wantlist.value.entries else [];
              (r.Err? <==> (exists i :: 0 <= i < |entries| && EntryFails(entries[i], p))
                           || (exists i :: 0 <= i < |pb.payload| && PayloadFails(pb.payload[i], p))
                           || (exists i :: 0 <= i < |pb.blockPresences| && PresenceFails(pb.blockPresences[i], p)))
  {
    if |frame| > MaxBufSize then Err(FrameTooLarge(|frame|))
    else match decode(frame)
      case Err(msg) => Err(Malformed(msg))
      case Ok(pb) =>
        var entries := if pb.wantlist.Some? then pb.wantlist.value.entries else [];
        EntriesFailure(entries, p);
        match Entries(entries, p)
        case Err(msg) => Err(Malformed(msg))
        case Ok(requests) =>
          match Payloads(pb.payload, p)
          case Err(msg) => Err(Malformed(msg))
          case Ok(blocks) =>
            match Presences(pb.blockPresences, p)
            case Err(msg) => Err(Malformed(msg))
            case Ok(haves) => Ok(requests + blocks + haves)
  }

  /** Requests, then blocks, then presences. */
  predicate Ordered(msgs: seq<BitswapMessage>, a: nat, b: nat)
  {
    && a <= b <= |msgs|
    && (forall k :: 0 <= k < a ==> msgs[k].Request?)
    && (forall k :: a <= k < b ==> msgs[k].Response? && msgs[k].response.BlockData?)
    && (forall k :: b <= k < |msgs| ==> msgs[k].Response? && msgs[k].response.HaveBlock?)
  }

  /** A successful read is ordered: requests first, then blocks, then
      presences, and it has at most one message per entry, payload and presence. */
  lemma ReadRequestShape(frame: seq<byte>, decode: seq<byte> -> Result<PbMessage, string>, p: Parsers)
    requires ReadRequest(frame, decode, p).Ok?
    ensures var msgs := ReadRequest(frame, decode, p).value;
            var pb := decode(frame).value;
            var entries := if pb.wantlist.Some? then pb.wantlist.value.entries else [];
            && |msgs| <= |entries| + |pb.payload| + |pb.blockPresences|
            && exists a: nat, b: nat :: Ordered(msgs, a, b)
  {
    var msgs := ReadRequest(frame, decode, p).value;
    var pb := decode(frame).value;
    var entries := if pb.wantlist.Some? then pb.wantlist.value.entries else [];
    var x := Entries(entries, p).value;
    var y := Payloads(pb.payload, p).value;
    var z := Presences(pb.blockPresences, p).value;
    ConcatOrdered(x, y, z);
    assert Ordered(msgs, |x|, |x| + |y|);
  }

  lemma ConcatOrdered(x: seq<BitswapMessage>, y: seq<BitswapMessage>, z: seq<BitswapMessage>)
    requires forall k :: 0 <= k < |x| ==> x[k].Request?
    requires forall k :: 0 <= k < |y| ==> y[k].Response? && y[k].response.BlockData?
    requires forall k :: 0 <= k < |z| ==> z[k].Response? && z[k].response.HaveBlock?
    ensures Ordered(x + y + z, |x|, |x| + |y|)
  {
    var msgs := x + y + z;
    assert forall k :: 0 <= k < |x| ==> msgs[k] == x[k];
    assert forall k :: |x| <= k < |x| + |y| ==> msgs[k] == y[k - |x|];
    assert forall k :: |x| + |y| <= k < |msgs| ==> msgs[k] == z[k - |x| - |y|];
  }

  /** `write_request` sends exactly one message: the serialization of that
      message, framed by the caller. */
  function WriteRequest(messages: seq<BitswapMessage>, toBytes: BitswapMessage -> Result<seq<byte>, string>)
    : (r: Result<seq<byte>, string>)
    requires |messages| == 1
    ensures r == toBytes(messages[0])
  {
    toBytes(messages[0])
  }
}
