/** The untagged envelope: the first of Jwe, Jws and Message that the JSON decodes to. */
module Envelopes {
  import opened Wrappers
  import opened Octets
  import opened JsonText
  import opened Serde
  import opened Jwe
  import opened JweCrypto
  import opened Jws
  import opened Messages

  datatype Envelope =
    | JweEnvelope(jwe: Jwe)
    | JwsEnvelope(jws: Jws)
    | MessageEnvelope(message: Message)

  datatype ParsedEnvelope =
    | ParsedJweEnvelope(jwe: ParsedJwe)
    | ParsedJwsEnvelope(jws: ParsedJws)
    | ParsedMessage(message: Message)

  function EnvelopeFromJson(j: Json): Result<Envelope> {
    if JweFromJson(j).Ok? then Ok(JweEnvelope(JweFromJson(j).value))
    else if JwsFromJson(j).Ok? then Ok(JwsEnvelope(JwsFromJson(j).value))
    else
      var m :- MessageFromJson(j);
      Ok(MessageEnvelope(m))
  }

  /** `Envelope::from_str` */
  function EnvelopeFromStr(text: string): Result<Envelope> {
    var json :- OkOr(Parse(text), Malformed);
    EnvelopeFromJson(json)
  }

  /** `Envelope::parse` followed by `ParsedEnvelope::verify_didcomm` */
  function ParseEnvelope(e: Envelope): Result<ParsedEnvelope> {
    match e
    case JweEnvelope(jwe) =>
      var p :- ParseJwe(jwe);
      var v :- VerifyDidcomm(p);
      Ok(ParsedJweEnvelope(v))
    case JwsEnvelope(jws) =>
      var p :- ParseJws(jws);
      Ok(ParsedJwsEnvelope(p))
    case MessageEnvelope(m) => Ok(ParsedMessage(m))
  }

  /** `Envelope::from_str(text)?.parse()?.verify_didcomm()?` */
  function ReadEnvelope(text: string): Result<ParsedEnvelope> {
    var e :- EnvelopeFromStr(text);
    ParseEnvelope(e)
  }

  lemma JweDecodes(jwe: Jwe)
    ensures EnvelopeFromStr(Print(JweToJson(jwe))) == Ok(JweEnvelope(jwe))
  {
    hide Print, Parse, JweMembers, JweFromMembers;
    ParsePrint(JweToJson(jwe));
    JweRoundTrip(jwe);
  }

  lemma JwsDecodes(jws: Jws)
    ensures EnvelopeFromStr(Print(JwsToJson(jws))) == Ok(JwsEnvelope(jws))
  {
    hide Print, Parse, JwsMembers, JwsFromMembers, Values;
    ParsePrint(JwsToJson(jws));
    JwsRoundTrip(jws);
    JwsValues(jws, "protected");
  }

  /** Decoding as a Jwe or Jws looks only at names that are not fields of a message. */
  lemma ForeignFields(m: Message)
    ensures JweFromMembers(MessageMembers(m)) == JweFromMembers(m.extraHeaders)
    ensures JwsFromMembers(MessageMembers(m)) == JwsFromMembers(m.extraHeaders)
  {
    hide Values, MessageMembers, RecipientsFromJson, SignaturesFromJson;
    ForeignValues(m, "protected");
    ForeignValues(m, "recipients");
    ForeignValues(m, "iv");
    ForeignValues(m, "ciphertext");
    ForeignValues(m, "tag");
    ForeignValues(m, "signatures");
    ForeignValues(m, "payload");
  }

  /** The custom headers alone do not make an encrypted or a signed envelope. */
  predicate PlainHeaders(headers: seq<Member>) {
    JweFromMembers(headers).Err? && JwsFromMembers(headers).Err?
  }

  /** A serialized message is read back as itself exactly when its custom headers keep clear of its
      own fields, do not make up an envelope of their own, and no attachment holds raw `Bytes`. */
  lemma MessageDecodesExact(m: Message)
    requires DistinctNames(m.extraHeaders)
    ensures ReadEnvelope(Print(MessageToJson(m))) == Ok(ParsedMessage(m))
            <==> NoClash(m.extraHeaders) && PlainHeaders(m.extraHeaders) && NoBytes(m)
  {
    hide Print, Parse, MessageMembers, JweFromMembers, JwsFromMembers, MessageFromMembers, NoClash, NoBytes;
    ParsePrint(MessageToJson(m));
    ForeignFields(m);
    MessageRoundTripExact(m);
  }

  /** A message whose custom headers spell out a Jwe is read back as that Jwe. */
  lemma HeadersActAsJwe(m: Message, jwe: Jwe)
    requires m.extraHeaders == JweMembers(jwe)
    ensures EnvelopeFromStr(Print(MessageToJson(m))) == Ok(JweEnvelope(jwe))
  {
    hide Print, Parse, MessageMembers, JweMembers, JweFromMembers;
    ParsePrint(MessageToJson(m));
    ForeignFields(m);
    JweRoundTrip(jwe);
  }

  /** A message that travels keeps everything but the variant of raw `Bytes` attachments, and a second
      trip changes nothing more. */
  lemma MessageTravels(m: Message)
    requires DistinctNames(m.extraHeaders) && NoClash(m.extraHeaders) && PlainHeaders(m.extraHeaders)
    ensures ReadEnvelope(Print(MessageToJson(m))) == Ok(ParsedMessage(TravelledMessage(m)))
    ensures MessageToJson(TravelledMessage(m)) == MessageToJson(m)
  {
    hide Print, Parse, JweFromMembers, JwsFromMembers, MessageFromMembers, NoClash;
    ParsePrint(MessageToJson(m));
    ForeignFields(m);
    MessageDecodes(m);
    if m.attachments.Some? {
      TravelledJson(m.attachments.value);
    }
  }

  lemma {:induction false} TravelledJson(v: seq<Attachment>)
    ensures AttachmentsToJson(AllTravelled(v)) == AttachmentsToJson(v)
  {
    if v != [] {
      TravelledJson(v[1..]);
      assert AllTravelled(v)[1..] == AllTravelled(v[1..]);
    }
  }

  /** Whatever the text, what cannot be read as an envelope is malformed. */
  lemma ReadsOrMalformed(text: string)
    ensures ReadEnvelope(text).Err? ==> ReadEnvelope(text) == Err(Malformed)
  {
    hide Parse, JweFromJson, JwsFromJson, MessageFromMembers, ParseJwe, ParseSignHeaders, VerifyDidcomm;
    if Parse(text).Some? {
      var j := Parse(text).value;
      if JweFromJson(j).Ok? {
        JweOrMalformed(JweFromJson(j).value);
      } else if JwsFromJson(j).Ok? {
        SignHeadersOrMalformed(JwsFromJson(j).value.signatures);
      } else if j.Obj? {
        MessageOrMalformed(j.members);
      }
    }
  }

  lemma JweOrMalformed(jwe: Jwe)
    ensures ParseJwe(jwe).Err? ==> ParseJwe(jwe) == Err(Malformed)
    ensures ParseJwe(jwe).Ok? && VerifyDidcomm(ParseJwe(jwe).value).Err? ==>
              VerifyDidcomm(ParseJwe(jwe).value) == Err(Malformed)
  {
    hide Parse, Values;
  }

  lemma {:induction false} SignHeadersOrMalformed(ss: seq<Signed>)
    ensures ParseSignHeaders(ss).Err? ==> ParseSignHeaders(ss) == Err(Malformed)
  {
    hide ParseSignHeader;
    if ss != [] {
      ParseSignHeaderExact(ss[0]);
      SignHeadersOrMalformed(ss[1..]);
    }
  }

  lemma {:induction false} AttachmentsOrMalformed(items: seq<Json>)
    ensures AttachmentsFromJson(items).Err? ==> AttachmentsFromJson(items) == Err(Malformed)
  {
    hide Values;
    if items != [] {
      AttachmentsOrMalformed(items[1..]);
    }
  }

  lemma MessageOrMalformed(ms: seq<Member>)
    ensures MessageFromMembers(ms).Err? ==> MessageFromMembers(ms) == Err(Malformed)
  {
    hide Values, AttachmentsFromJson, Extras;
    var vs := Values(ms, "attachments");
    if |vs| == 1 && vs[0].Arr? {
      AttachmentsOrMalformed(vs[0].items);
    }
  }
}
