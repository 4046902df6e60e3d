/** A drand beacon entry as stored in a block header, and its JSON form
    `{"Round": <u64>, "Data": <standard padded Base64 of the signature>}`.
    JSON text syntax itself is outside the model: the JSON object is the
    record `BeaconEntryJson`. */
module BeaconEntries {
  import opened Results
  import Base64

  /** One round of randomness: the round number and the BLS signature bytes.
      Equality is structural over the two fields. */
  datatype BeaconEntry = BeaconEntry(round: u64, data: seq<byte>) {
    /** The round number. */
    function Round(): u64
    {
      round
    }

    /** The signature over the previous round's data and this round number. */
    function Data(): seq<byte>
    {
      data
    }
  }

  /** `BeaconEntry::new`: the accessors give back exactly what was passed in,
      and two entries built from equal fields are equal. */
  function New(round: u64, data: seq<byte>): (e: BeaconEntry)
    ensures e.Round() == round && e.Data() == data
    ensures forall other: BeaconEntry :: other == e <==> other.Round() == round && other.Data() == data
  {
    BeaconEntry(round, data)
  }

  /** The JSON helper object: `Round` and the Base64 text of `Data`. */
  datatype BeaconEntryJson = BeaconEntryJson(Round: u64, Data: string)

  /** `json::serialize`: the round unchanged, the data as padded standard Base64. */
  function Serialize(e: BeaconEntry): (j: BeaconEntryJson)
    ensures j.Round == e.Round()
    ensures Base64.Decode(j.Data) == Some(e.Data())
    ensures |j.Data| % 4 == 0
  {
    Base64.DecodeEncode(e.data);
    Base64.EncodedLength(e.data);
    BeaconEntryJson(e.round, Base64.Encode(e.data))
  }

  /** `json::deserialize`: fails exactly when `Data` is not Base64 under the
      standard padded engine; otherwise keeps the round and decodes the data. */
  function Deserialize(j: BeaconEntryJson): (r: Result<BeaconEntry, string>)
    ensures r.Ok? ==> r.value.Round() == j.Round && Base64.Encode(r.value.Data()) == j.Data
    ensures r.Err? ==> forall data :: Base64.Encode(data) != j.Data
  {
    Base64.DecodeFailsIffNotEncoding(j.Data);
    match Base64.Decode(j.Data)
    case None => Err("invalid base64 in beacon entry data")
    case Some(data) =>
      Base64.EncodeDecode(j.Data, data);
      Ok(BeaconEntry(j.Round, data))
  }

  /** The round trip the quickcheck test asserts: parsing the serialization
      of any entry gives back an equal entry. */
  lemma SerializeRoundTrip(e: BeaconEntry)
    ensures Deserialize(Serialize(e)) == Ok(e)
  {
    Base64.DecodeEncode(e.data);
  }

  /** The converse: a JSON object that deserializes is the serialization of
      what it deserializes to, so the JSON form of an entry is unique. */
  lemma DeserializeRoundTrip(j: BeaconEntryJson)
    requires Deserialize(j).Ok?
    ensures Serialize(Deserialize(j).value) == j
  {
  }

  /** The worked example `{round: 7, data: "sig7"}`: `Data` is `c2lnNw==`. */
  lemma SerializeExample()
    ensures Serialize(New(7, [115, 105, 103, 55])) == BeaconEntryJson(7, "c2lnNw==")
  {
    EncodeSig7();
  }

  /** The bytes of `sig7` in padded standard Base64. */
  lemma EncodeSig7()
    ensures Base64.Encode([115, 105, 103, 55]) == "c2lnNw=="
  {
    var data: seq<byte> := [115, 105, 103, 55];
    assert data[3..] == [55];
    assert Base64.EncodeTriple(115, 105, 103) == "c2ln" by {
      assert Base64.CharOf(28) == 'c' && Base64.CharOf(54) == '2';
      assert Base64.CharOf(37) == 'l' && Base64.CharOf(39) == 'n';
    }
    assert Base64.EncodeSingle(55) == "Nw==" by {
      assert Base64.CharOf(13) == 'N' && Base64.CharOf(48) == 'w';
    }
    assert Base64.Encode(data) == Base64.EncodeTriple(115, 105, 103) + Base64.Encode([55]);
  }

  /** `json::vec::serialize`: one JSON element per entry, in order. */
  function SerializeVec(es: seq<BeaconEntry>): (js: seq<BeaconEntryJson>)
    ensures |js| == |es|
    ensures forall i :: 0 <= i < |es| ==> js[i] == Serialize(es[i])
    decreases |es|
  {
    if |es| == 0 then [] else [Serialize(es[0])] + SerializeVec(es[1..])
  }

  /** Element-wise deserialization of a JSON array: the first element that does
      not deserialize makes the whole array an error. */
  function DeserializeVec(js: seq<BeaconEntryJson>): (r: Result<seq<BeaconEntry>, string>)
    ensures r.Ok? ==> |r.value| == |js|
    ensures r.Ok? ==> forall i :: 0 <= i < |js| ==> Deserialize(js[i]) == Ok(r.value[i])
    ensures r.Err? ==> exists i :: 0 <= i < |js| && Deserialize(js[i]).Err?
    decreases |js|
  {
    if |js| == 0 then Ok([])
    else
      match Deserialize(js[0])
      case Err(msg) => Err(msg)
      case Ok(e) =>
        match DeserializeVec(js[1..])
        case Err(msg) => Err(msg)
        case Ok(rest) => Ok([e] + rest)
  }

  /** Serializing a vector and reading it back yields the same entries. */
  lemma {:induction false} SerializeVecRoundTrip(es: seq<BeaconEntry>)
    ensures DeserializeVec(SerializeVec(es)) == Ok(es)
    decreases |es|
  {
    if |es| > 0 {
      var js := SerializeVec(es);
      assert js == [Serialize(es[0])] + SerializeVec(es[1..]);
      assert js[0] == Serialize(es[0]) && js[1..] == SerializeVec(es[1..]);
      SerializeRoundTrip(es[0]);
      SerializeVecRoundTrip(es[1..]);
      assert DeserializeVec(js) == Ok([es[0]] + es[1..]);
      assert [es[0]] + es[1..] == es;
    }
  }
}
