/** The plaintext message and its attachments, and their JSON forms. */
module Messages {
  import opened Wrappers
  import opened Octets
  import opened JsonText
  import opened Serde

  type u64 = n: nat | n < U64

  // ----- Attachments -----

  datatype AttachmentData =
    | Base64Data(base64: string, jws: Option<string>)
    | JsonData(json: Json, jws: Option<string>)
    | LinksData(links: seq<string>, hash: string, jws: Option<string>)
    | RkyvData(value: bytes)
    | BytesData(value: bytes)

  datatype Attachment = Attachment(
    data: AttachmentData,
    id: Option<string>,
    description: Option<string>,
    filename: Option<string>,
    mediaType: Option<string>,
    format: Option<string>,
    lastmodTime: Option<u64>,
    byteCount: Option<u64>)

  function Nums(v: bytes): seq<Json> {
    seq(|v|, i requires 0 <= i < |v| => Num(v[i]))
  }

  predicate IsByteNum(j: Json) {
    j.Num? && 0 <= j.n < 256
  }

  function ByteOf(j: Json): byte
    requires IsByteNum(j)
  {
    j.n
  }

  function ToBytes(items: seq<Json>): Result<bytes> {
    if forall j :: j in items ==> IsByteNum(j) then
      Ok(seq(|items|, i requires 0 <= i < |items| => assert items[i] in items; ByteOf(items[i])))
    else Err(Malformed)
  }

  lemma ToBytesNums(v: bytes)
    ensures ToBytes(Nums(v)) == Ok(v)
  {
    assert ToBytes(Nums(v)).value == v;
  }

  function DataMembers(d: AttachmentData): seq<Member> {
    match d
    case Base64Data(base64, jws) => Field("base64", Str(base64)) + OptField("jws", OptStr(jws))
    case JsonData(json, jws) => Field("json", json) + OptField("jws", OptStr(jws))
    case LinksData(links, hash, jws) =>
      Field("links", Arr(Strs(links))) + (Field("hash", Str(hash)) + OptField("jws", OptStr(jws)))
    case RkyvData(value) => Field("value", Arr(Nums(value)))
    case BytesData(value) => Field("value", Arr(Nums(value)))
  }

  function Base64FromMembers(ms: seq<Member>): Result<AttachmentData> {
    var base64 :- GetStr(ms, "base64");
    var jws :- GetOptStr(ms, "jws");
    Ok(Base64Data(base64, jws))
  }

  function JsonFromMembers(ms: seq<Member>): Result<AttachmentData> {
    var json :- GetValue(ms, "json");
    var jws :- GetOptStr(ms, "jws");
    Ok(JsonData(json, jws))
  }

  function LinksFromMembers(ms: seq<Member>): Result<AttachmentData> {
    var items :- GetArr(ms, "links");
    var links :- ToStrs(items);
    var hash :- GetStr(ms, "hash");
    var jws :- GetOptStr(ms, "jws");
    Ok(LinksData(links, hash, jws))
  }

  function OctetsFromMembers(ms: seq<Member>): Result<bytes> {
    var items :- GetArr(ms, "value");
    ToBytes(items)
  }

  /** Untagged: the first variant that decodes. `Bytes` has the form of `Rkyv`, which comes first. */
  function DataFromMembers(ms: seq<Member>): Result<AttachmentData> {
    if Base64FromMembers(ms).Ok? then Base64FromMembers(ms)
    else if JsonFromMembers(ms).Ok? then JsonFromMembers(ms)
    else if LinksFromMembers(ms).Ok? then LinksFromMembers(ms)
    else
      var value :- OctetsFromMembers(ms);
      Ok(RkyvData(value))
  }

  function AttachmentMembers(a: Attachment): seq<Member> {
    Field("data", Obj(DataMembers(a.data)))
    + (OptField("id", OptStr(a.id))
    + (OptField("description", OptStr(a.description))
    + (OptField("filename", OptStr(a.filename))
    + (OptField("media_type", OptStr(a.mediaType))
    + (OptField("format", OptStr(a.format))
    + (OptField("lastmod_time", OptNum(a.lastmodTime))
    + OptField("byte_count", OptNum(a.byteCount))))))))
  }

  function AttachmentFromJson(j: Json): Result<Attachment> {
    if !j.Obj? then Err(Malformed) else
      var ms := j.members;
      var d :- GetValue(ms, "data");
      if !d.Obj? then Err(Malformed) else
        var data :- DataFromMembers(d.members);
        var id :- GetOptStr(ms, "id");
        var description :- GetOptStr(ms, "description");
        var filename :- GetOptStr(ms, "filename");
        var mediaType :- GetOptStr(ms, "media_type");
        var format :- GetOptStr(ms, "format");
        var lastmodTime :- GetOptU64(ms, "lastmod_time");
        var byteCount :- GetOptU64(ms, "byte_count");
        Ok(Attachment(data, id, description, filename, mediaType, format, lastmodTime, byteCount))
  }

  function AttachmentsToJson(v: seq<Attachment>): seq<Json> {
    if v == [] then [] else [Obj(AttachmentMembers(v[0]))] + AttachmentsToJson(v[1..])
  }

  function AttachmentsFromJson(items: seq<Json>): Result<seq<Attachment>> {
    if items == [] then Ok([]) else
      var a :- AttachmentFromJson(items[0]);
      var rest :- AttachmentsFromJson(items[1..]);
      Ok([a] + rest)
  }

  /** What an attachment becomes by travelling: raw `Bytes` come back as `Rkyv`. */
  function Travelled(a: Attachment): Attachment {
    if a.data.BytesData? then a.(data := RkyvData(a.data.value)) else a
  }

  function AllTravelled(v: seq<Attachment>): seq<Attachment> {
    if v == [] then [] else [Travelled(v[0])] + AllTravelled(v[1..])
  }

  lemma DataValues(d: AttachmentData, n: string)
    ensures Values(DataMembers(d), n)
            == match d
               case Base64Data(base64, jws) =>
                 if n == "base64" then [Str(base64)] else if n == "jws" && jws.Some? then [Str(jws.value)] else []
               case JsonData(json, jws) =>
                 if n == "json" then [json] else if n == "jws" && jws.Some? then [Str(jws.value)] else []
               case LinksData(links, hash, jws) =>
                 if n == "links" then [Arr(Strs(links))] else if n == "hash" then [Str(hash)]
                 else if n == "jws" && jws.Some? then [Str(jws.value)] else []
               case RkyvData(value) => if n == "value" then [Arr(Nums(value))] else []
               case BytesData(value) => if n == "value" then [Arr(Nums(value))] else []
  {
    hide Values, Field, OptField, Strs, Nums;
    match d
    case Base64Data(base64, jws) =>
      ValuesField("base64", Str(base64), OptField("jws", OptStr(jws)), n);
      ValuesOpt("jws", OptStr(jws), n);
    case JsonData(json, jws) =>
      ValuesField("json", json, OptField("jws", OptStr(jws)), n);
      ValuesOpt("jws", OptStr(jws), n);
    case LinksData(links, hash, jws) =>
      ValuesField("links", Arr(Strs(links)), Field("hash", Str(hash)) + OptField("jws", OptStr(jws)), n);
      ValuesField("hash", Str(hash), OptField("jws", OptStr(jws)), n);
      ValuesOpt("jws", OptStr(jws), n);
    case RkyvData(value) =>
      ValuesOne("value", Arr(Nums(value)), n);
    case BytesData(value) =>
      ValuesOne("value", Arr(Nums(value)), n);
  }

  /** Every attachment datum decodes to itself, except that `Bytes` decodes to `Rkyv`. */
  lemma DataRoundTrip(d: AttachmentData)
    ensures DataFromMembers(DataMembers(d)) == Ok(if d.BytesData? then RkyvData(d.value) else d)
  {
    hide Values, DataMembers, Strs, Nums, ToStrs, ToBytes;
    DataValues(d, "base64");
    DataValues(d, "json");
    DataValues(d, "links");
    DataValues(d, "hash");
    DataValues(d, "jws");
    DataValues(d, "value");
    if d.LinksData? {
      ToStrsStrs(d.links);
    }
    if d.RkyvData? || d.BytesData? {
      ToBytesNums(d.value);
    }
  }

  lemma AttachmentValues(a: Attachment, n: string)
    ensures Values(AttachmentMembers(a), n)
            == if n == "data" then [Obj(DataMembers(a.data))]
               else if n == "id" && a.id.Some? then [Str(a.id.value)]
               else if n == "description" && a.description.Some? then [Str(a.description.value)]
               else if n == "filename" && a.filename.Some? then [Str(a.filename.value)]
               else if n == "media_type" && a.mediaType.Some? then [Str(a.mediaType.value)]
               else if n == "format" && a.format.Some? then [Str(a.format.value)]
               else if n == "lastmod_time" && a.lastmodTime.Some? then [Num(a.lastmodTime.value)]
               else if n == "byte_count" && a.byteCount.Some? then [Num(a.byteCount.value)]
               else []
  {
    hide Values, Field, OptField, DataMembers;
    var t7 := OptField("byte_count", OptNum(a.byteCount));
    var t6 := OptField("lastmod_time", OptNum(a.lastmodTime)) + t7;
    var t5 := OptField("format", OptStr(a.format)) + t6;
    var t4 := OptField("media_type", OptStr(a.mediaType)) + t5;
    var t3 := OptField("filename", OptStr(a.filename)) + t4;
    var t2 := OptField("description", OptStr(a.description)) + t3;
    var t1 := OptField("id", OptStr(a.id)) + t2;
    ValuesField("data", Obj(DataMembers(a.data)), t1, n);
    ValuesOptField("id", OptStr(a.id), t2, n);
    ValuesOptField("description", OptStr(a.description), t3, n);
    ValuesOptField("filename", OptStr(a.filename), t4, n);
    ValuesOptField("media_type", OptStr(a.mediaType), t5, n);
    ValuesOptField("format", OptStr(a.format), t6, n);
    ValuesOptField("lastmod_time", OptNum(a.lastmodTime), t7, n);
    ValuesOpt("byte_count", OptNum(a.byteCount), n);
  }

  lemma AttachmentRoundTrip(a: Attachment)
    ensures AttachmentFromJson(Obj(AttachmentMembers(a))) == Ok(Travelled(a))
  {
    hide Values, AttachmentMembers, DataMembers, DataFromMembers, GetOptStr, GetOptU64;
    var ms := AttachmentMembers(a);
    AttachmentValues(a, "data");
    DataRoundTrip(a.data);
    AttachmentValues(a, "id");
    GetOptStrOf(ms, "id", a.id);
    AttachmentValues(a, "description");
    GetOptStrOf(ms, "description", a.description);
    AttachmentValues(a, "filename");
    GetOptStrOf(ms, "filename", a.filename);
    AttachmentValues(a, "media_type");
    GetOptStrOf(ms, "media_type", a.mediaType);
    AttachmentValues(a, "format");
    GetOptStrOf(ms, "format", a.format);
    AttachmentValues(a, "lastmod_time");
    GetOptU64Of(ms, "lastmod_time", a.lastmodTime);
    AttachmentValues(a, "byte_count");
    GetOptU64Of(ms, "byte_count", a.byteCount);
  }

  lemma {:induction false} AttachmentsRoundTrip(v: seq<Attachment>)
    ensures AttachmentsFromJson(AttachmentsToJson(v)) == Ok(AllTravelled(v))
  {
    hide AttachmentMembers, AttachmentFromJson, Travelled;
    if v != [] {
      AttachmentRoundTrip(v[0]);
      AttachmentsRoundTrip(v[1..]);
      assert AttachmentsToJson(v)[1..] == AttachmentsToJson(v[1..]);
    }
  }

  // ----- Messages -----

  datatype Message = Message(
    id: string,
    typ: string,
    msgType: string,
    body: Json,
    from: Option<string>,
    to: Option<seq<string>>,
    thid: Option<string>,
    pthid: Option<string>,
    extraHeaders: seq<Member>,
    createdTime: Option<u64>,
    expiresTime: Option<u64>,
    fromPrior: Option<string>,
    attachments: Option<seq<Attachment>>)

  const PLAINTEXT_TYP := "application/didcomm-plain+json"

  predicate OwnField(n: string) {
    n == "id" || n == "typ" || n == "type" || n == "body" || n == "from" || n == "to" || n == "thid" || n == "pthid"
    || n == "created_time" || n == "expires_time" || n == "from_prior" || n == "attachments"
  }

  function ToField(to: Option<seq<string>>): Option<Json> {
    match to
    case None => None
    case Some(v) => Some(Arr(Strs(v)))
  }

  function AttachmentsField(v: Option<seq<Attachment>>): Option<Json> {
    match v
    case None => None
    case Some(v) => Some(Arr(AttachmentsToJson(v)))
  }

  function TimeMembers(m: Message): seq<Member> {
    OptField("created_time", OptNum(m.createdTime))
    + (OptField("expires_time", OptNum(m.expiresTime))
    + (OptField("from_prior", OptStr(m.fromPrior))
    + OptField("attachments", AttachmentsField(m.attachments))))
  }

  function LeadMembers(m: Message): seq<Member> {
    Field("id", Str(m.id))
    + (Field("typ", Str(m.typ))
    + (Field("type", Str(m.msgType))
    + (Field("body", m.body)
    + (OptField("from", OptStr(m.from))
    + (OptField("to", ToField(m.to))
    + (OptField("thid", OptStr(m.thid))
    + OptField("pthid", OptStr(m.pthid))))))))
  }

  /** The custom headers are flattened between the other fields. */
  function MessageMembers(m: Message): seq<Member> {
    LeadMembers(m) + (m.extraHeaders + TimeMembers(m))
  }

  function MessageToJson(m: Message): Json {
    Obj(MessageMembers(m))
  }

  /** The members that no field of the message claims; a flattened map keeps the last of a name. */
  function Extras(ms: seq<Member>): seq<Member> {
    if ms == [] then []
    else
      var rest := Extras(ms[1..]);
      if OwnField(ms[0].name) || Values(rest, ms[0].name) != [] then rest else [ms[0]] + rest
  }

  function GetTyp(ms: seq<Member>): Result<string> {
    if Values(ms, "typ") == [] then Ok(PLAINTEXT_TYP) else GetStr(ms, "typ")
  }

  function GetTo(ms: seq<Member>): Result<Option<seq<string>>> {
    var o :- Find(ms, "to");
    match o
    case None => Ok(None)
    case Some(Arr(items)) =>
      var v :- ToStrs(items);
      Ok(Some(v))
    case _ => Err(Malformed)
  }

  function GetAttachments(ms: seq<Member>): Result<Option<seq<Attachment>>> {
    var o :- Find(ms, "attachments");
    match o
    case None => Ok(None)
    case Some(Arr(items)) =>
      var v :- AttachmentsFromJson(items);
      Ok(Some(v))
    case _ => Err(Malformed)
  }

  function MessageFromMembers(ms: seq<Member>): Result<Message> {
    var id :- GetStr(ms, "id");
    var typ :- GetTyp(ms);
    var msgType :- GetStr(ms, "type");
    var body :- GetValue(ms, "body");
    var from :- GetOptStr(ms, "from");
    var to :- GetTo(ms);
    var thid :- GetOptStr(ms, "thid");
    var pthid :- GetOptStr(ms, "pthid");
    var createdTime :- GetOptU64(ms, "created_time");
    var expiresTime :- GetOptU64(ms, "expires_time");
    var fromPrior :- GetOptStr(ms, "from_prior");
    var attachments :- GetAttachments(ms);
    Ok(Message(id, typ, msgType, body, from, to, thid, pthid, Extras(ms), createdTime, expiresTime, fromPrior,
               attachments))
  }

  function MessageFromJson(j: Json): Result<Message> {
    if j.Obj? then MessageFromMembers(j.members) else Err(Malformed)
  }

  /** `Message::validate` */
  function Validate(m: Message): Result<Message> {
    if m.typ != PLAINTEXT_TYP then Err(Malformed) else Ok(m)
  }

  // ----- Which messages decode to themselves -----

  /** The keys of a map are distinct. */
  predicate DistinctNames(ms: seq<Member>) {
    ms == [] || (Values(ms[1..], ms[0].name) == [] && DistinctNames(ms[1..]))
  }

  predicate NoClash(headers: seq<Member>) {
    forall h :: h in headers ==> !OwnField(h.name)
  }

  predicate NoBytes(m: Message) {
    m.attachments.Some? ==> forall a :: a in m.attachments.value ==> !a.data.BytesData?
  }

  function TravelledMessage(m: Message): Message {
    match m.attachments
    case None => m
    case Some(v) => m.(attachments := Some(AllTravelled(v)))
  }

  lemma {:induction false} AllTravelledExact(v: seq<Attachment>)
    ensures AllTravelled(v) == v <==> forall a :: a in v ==> !a.data.BytesData?
  {
    if v != [] {
      AllTravelledExact(v[1..]);
      assert v == [v[0]] + v[1..];
      assert AllTravelled(v)[1..] == AllTravelled(v[1..]);
    }
  }

  lemma {:induction false} ExtrasNotOwn(ms: seq<Member>)
    ensures NoClash(Extras(ms))
  {
    if ms != [] {
      ExtrasNotOwn(ms[1..]);
    }
  }

  lemma {:induction false} ExtrasSkip(own: seq<Member>, ms: seq<Member>)
    requires forall m :: m in own ==> OwnField(m.name)
    ensures Extras(own + ms) == Extras(ms)
  {
    if own == [] {
      assert own + ms == ms;
    } else {
      assert (own + ms)[1..] == own[1..] + ms;
      ExtrasSkip(own[1..], ms);
    }
  }

  lemma {:induction false} ExtrasKeep(headers: seq<Member>, own: seq<Member>)
    requires DistinctNames(headers) && NoClash(headers)
    requires forall m :: m in own ==> OwnField(m.name)
    ensures Extras(headers + own) == headers
  {
    if headers == [] {
      ExtrasSkip(own, []);
      assert own + [] == own && headers + own == own;
    } else {
      assert (headers + own)[1..] == headers[1..] + own;
      ExtrasKeep(headers[1..], own);
      assert headers == [headers[0]] + headers[1..];
    }
  }

  lemma LeadValues(m: Message, n: string)
    ensures Values(LeadMembers(m), n)
            == if n == "id" then [Str(m.id)]
               else if n == "typ" then [Str(m.typ)]
               else if n == "type" then [Str(m.msgType)]
               else if n == "body" then [m.body]
               else if n == "from" && m.from.Some? then [Str(m.from.value)]
               else if n == "to" && m.to.Some? then [Arr(Strs(m.to.value))]
               else if n == "thid" && m.thid.Some? then [Str(m.thid.value)]
               else if n == "pthid" && m.pthid.Some? then [Str(m.pthid.value)]
               else []
  {
    hide Values, Field, OptField, Strs;
    var t7 := OptField("pthid", OptStr(m.pthid));
    var t6 := OptField("thid", OptStr(m.thid)) + t7;
    var t5 := OptField("to", ToField(m.to)) + t6;
    var t4 := OptField("from", OptStr(m.from)) + t5;
    var t3 := Field("body", m.body) + t4;
    var t2 := Field("type", Str(m.msgType)) + t3;
    var t1 := Field("typ", Str(m.typ)) + t2;
    ValuesField("id", Str(m.id), t1, n);
    ValuesField("typ", Str(m.typ), t2, n);
    ValuesField("type", Str(m.msgType), t3, n);
    ValuesField("body", m.body, t4, n);
    ValuesOptField("from", OptStr(m.from), t5, n);
    ValuesOptField("to", ToField(m.to), t6, n);
    ValuesOptField("thid", OptStr(m.thid), t7, n);
    ValuesOpt("pthid", OptStr(m.pthid), n);
  }

  lemma TimeValues(m: Message, n: string)
    ensures Values(TimeMembers(m), n)
            == if n == "created_time" && m.createdTime.Some? then [Num(m.createdTime.value)]
               else if n == "expires_time" && m.expiresTime.Some? then [Num(m.expiresTime.value)]
               else if n == "from_prior" && m.fromPrior.Some? then [Str(m.fromPrior.value)]
               else if n == "attachments" && m.attachments.Some? then [Arr(AttachmentsToJson(m.attachments.value))]
               else []
  {
    hide Values, Field, OptField, AttachmentsToJson;
    var t3 := OptField("attachments", AttachmentsField(m.attachments));
    var t2 := OptField("from_prior", OptStr(m.fromPrior)) + t3;
    var t1 := OptField("expires_time", OptNum(m.expiresTime)) + t2;
    ValuesOptField("created_time", OptNum(m.createdTime), t1, n);
    ValuesOptField("expires_time", OptNum(m.expiresTime), t2, n);
    ValuesOptField("from_prior", OptStr(m.fromPrior), t3, n);
    ValuesOpt("attachments", AttachmentsField(m.attachments), n);
  }

  /** What the JSON form of a message holds under a name that is not one of its fields. */
  lemma ForeignValues(m: Message, n: string)
    requires !OwnField(n)
    ensures Values(MessageMembers(m), n) == Values(m.extraHeaders, n)
  {
    hide Values, LeadMembers, TimeMembers;
    ValuesConcat(LeadMembers(m), m.extraHeaders + TimeMembers(m), n);
    ValuesConcat(m.extraHeaders, TimeMembers(m), n);
    LeadValues(m, n);
    TimeValues(m, n);
  }

  /** And under the name of a field, when the custom headers stay clear of the fields. */
  lemma OwnValues(m: Message, n: string)
    requires OwnField(n) && NoClash(m.extraHeaders)
    ensures Values(MessageMembers(m), n) == Values(LeadMembers(m), n) + Values(TimeMembers(m), n)
  {
    hide Values, LeadMembers, TimeMembers, OwnField;
    ValuesConcat(LeadMembers(m), m.extraHeaders + TimeMembers(m), n);
    ValuesConcat(m.extraHeaders, TimeMembers(m), n);
    ValuesAbsent(m.extraHeaders, n);
  }

  predicate AllOwn(ms: seq<Member>) {
    forall f :: f in ms ==> OwnField(f.name)
  }

  lemma NoneOwn()
    ensures AllOwn([])
  {
  }

  lemma OwnOpt(n: string, v: Option<Json>, rest: seq<Member>)
    requires OwnField(n) && AllOwn(rest)
    ensures AllOwn(OptField(n, v) + rest)
  {
  }

  lemma OwnOne(n: string, v: Json, rest: seq<Member>)
    requires OwnField(n) && AllOwn(rest)
    ensures AllOwn(Field(n, v) + rest)
  {
  }

  lemma OwnMembers(m: Message)
    ensures AllOwn(LeadMembers(m)) && AllOwn(TimeMembers(m))
  {
    hide AllOwn, Field, OptField;
    var t3 := OptField("attachments", AttachmentsField(m.attachments));
    NoneOwn();
    OwnOpt("attachments", AttachmentsField(m.attachments), []);
    assert t3 + [] == t3;
    OwnOpt("from_prior", OptStr(m.fromPrior), t3);
    var t2 := OptField("from_prior", OptStr(m.fromPrior)) + t3;
    OwnOpt("expires_time", OptNum(m.expiresTime), t2);
    OwnOpt("created_time", OptNum(m.createdTime), OptField("expires_time", OptNum(m.expiresTime)) + t2);
    var u7 := OptField("pthid", OptStr(m.pthid));
    OwnOpt("pthid", OptStr(m.pthid), []);
    assert u7 + [] == u7;
    OwnOpt("thid", OptStr(m.thid), u7);
    var u6 := OptField("thid", OptStr(m.thid)) + u7;
    OwnOpt("to", ToField(m.to), u6);
    var u5 := OptField("to", ToField(m.to)) + u6;
    OwnOpt("from", OptStr(m.from), u5);
    var u4 := OptField("from", OptStr(m.from)) + u5;
    OwnOne("body", m.body, u4);
    var u3 := Field("body", m.body) + u4;
    OwnOne("type", Str(m.msgType), u3);
    var u2 := Field("type", Str(m.msgType)) + u3;
    OwnOne("typ", Str(m.typ), u2);
    OwnOne("id", Str(m.id), Field("typ", Str(m.typ)) + u2);
  }

  lemma LeadDecodes(m: Message)
    requires NoClash(m.extraHeaders)
    ensures var ms := MessageMembers(m);
            && GetStr(ms, "id") == Ok(m.id)
            && GetTyp(ms) == Ok(m.typ)
            && GetStr(ms, "type") == Ok(m.msgType)
            && GetValue(ms, "body") == Ok(m.body)
            && GetOptStr(ms, "from") == Ok(m.from)
            && GetTo(ms) == Ok(m.to)
  {
    hide Values, MessageMembers, NoClash, Strs, ToStrs, AttachmentsToJson;
    var ms := MessageMembers(m);
    Own(m, "id");
    Own(m, "typ");
    Own(m, "type");
    Own(m, "body");
    Own(m, "from");
    GetOptStrOf(ms, "from", m.from);
    Own(m, "to");
    if m.to.Some? {
      ToStrsStrs(m.to.value);
    }
  }

  lemma RestDecodes(m: Message)
    requires NoClash(m.extraHeaders)
    ensures var ms := MessageMembers(m);
            && GetOptStr(ms, "thid") == Ok(m.thid)
            && GetOptStr(ms, "pthid") == Ok(m.pthid)
            && GetOptU64(ms, "created_time") == Ok(m.createdTime)
            && GetOptU64(ms, "expires_time") == Ok(m.expiresTime)
            && GetOptStr(ms, "from_prior") == Ok(m.fromPrior)
            && GetAttachments(ms) == Ok(TravelledMessage(m).attachments)
  {
    hide Values, MessageMembers, GetOptStr, GetOptU64, NoClash, AttachmentsToJson, AttachmentsFromJson, Strs;
    var ms := MessageMembers(m);
    Own(m, "thid");
    GetOptStrOf(ms, "thid", m.thid);
    Own(m, "pthid");
    GetOptStrOf(ms, "pthid", m.pthid);
    Own(m, "created_time");
    GetOptU64Of(ms, "created_time", m.createdTime);
    Own(m, "expires_time");
    GetOptU64Of(ms, "expires_time", m.expiresTime);
    Own(m, "from_prior");
    GetOptStrOf(ms, "from_prior", m.fromPrior);
    Own(m, "attachments");
    if m.attachments.Some? {
      AttachmentsRoundTrip(m.attachments.value);
    }
  }

  lemma MessageDecodes(m: Message)
    requires DistinctNames(m.extraHeaders) && NoClash(m.extraHeaders)
    ensures MessageFromJson(MessageToJson(m)) == Ok(TravelledMessage(m))
  {
    hide MessageMembers, GetStr, GetOptStr, GetOptU64, GetValue, GetTyp, GetTo, GetAttachments, NoClash, Extras;
    LeadDecodes(m);
    RestDecodes(m);
    ExtrasOfMessage(m);
  }

  lemma Own(m: Message, n: string)
    requires OwnField(n) && NoClash(m.extraHeaders)
    ensures Values(MessageMembers(m), n)
            == if n == "id" then [Str(m.id)]
               else if n == "typ" then [Str(m.typ)]
               else if n == "type" then [Str(m.msgType)]
               else if n == "body" then [m.body]
               else if n == "from" && m.from.Some? then [Str(m.from.value)]
               else if n == "to" && m.to.Some? then [Arr(Strs(m.to.value))]
               else if n == "thid" && m.thid.Some? then [Str(m.thid.value)]
               else if n == "pthid" && m.pthid.Some? then [Str(m.pthid.value)]
               else if n == "created_time" && m.createdTime.Some? then [Num(m.createdTime.value)]
               else if n == "expires_time" && m.expiresTime.Some? then [Num(m.expiresTime.value)]
               else if n == "from_prior" && m.fromPrior.Some? then [Str(m.fromPrior.value)]
               else if n == "attachments" && m.attachments.Some? then [Arr(AttachmentsToJson(m.attachments.value))]
               else []
  {
    hide Values, LeadMembers, TimeMembers, MessageMembers, AttachmentsToJson, Strs, NoClash;
    OwnValues(m, n);
    LeadValues(m, n);
    TimeValues(m, n);
  }

  lemma ExtrasOfMessage(m: Message)
    requires DistinctNames(m.extraHeaders) && NoClash(m.extraHeaders)
    ensures Extras(MessageMembers(m)) == m.extraHeaders
  {
    hide LeadMembers, TimeMembers;
    OwnMembers(m);
    ExtrasSkip(LeadMembers(m), m.extraHeaders + TimeMembers(m));
    ExtrasKeep(m.extraHeaders, TimeMembers(m));
  }

  /** A message decodes to itself exactly when no custom header takes the name of a field and no
      attachment holds raw `Bytes`. */
  lemma MessageRoundTripExact(m: Message)
    requires DistinctNames(m.extraHeaders)
    ensures MessageFromJson(MessageToJson(m)) == Ok(m) <==> NoClash(m.extraHeaders) && NoBytes(m)
  {
    hide MessageMembers, NoClash;
    if NoClash(m.extraHeaders) {
      MessageDecodes(m);
      if m.attachments.Some? {
        AllTravelledExact(m.attachments.value);
      }
    } else {
      ExtrasNotOwn(MessageMembers(m));
    }
  }

  // ----- Which objects are messages -----

  predicate OptTime(ms: seq<Member>, name: string, o: Option<u64>) {
    match o
    case None => Missing(ms, name)
    case Some(n) => Sole(ms, name, Num(n))
  }

  predicate OptTexts(ms: seq<Member>, name: string, o: Option<seq<string>>) {
    match o
    case None => Missing(ms, name)
    case Some(v) => Sole(ms, name, Arr(Strs(v)))
  }

  ghost predicate OptAttachments(ms: seq<Member>, name: string, o: Option<seq<Attachment>>) {
    match o
    case None => Missing(ms, name)
    case Some(v) => exists items :: Sole(ms, name, Arr(items)) && AttachmentsFromJson(items) == Ok(v)
  }

  /** The fields of a message stand in an object: the required ones once, the optional ones at most once, a
      missing "typ" standing for the plaintext one, and all other names are its custom headers. */
  ghost predicate Spells(ms: seq<Member>, m: Message) {
    && Sole(ms, "id", Str(m.id)) && Sole(ms, "type", Str(m.msgType)) && Sole(ms, "body", m.body)
    && (Sole(ms, "typ", Str(m.typ)) || (Values(ms, "typ") == [] && m.typ == "application/didcomm-plain+json"))
    && OptText(ms, "from", m.from) && OptTexts(ms, "to", m.to)
    && OptText(ms, "thid", m.thid) && OptText(ms, "pthid", m.pthid)
    && OptTime(ms, "created_time", m.createdTime) && OptTime(ms, "expires_time", m.expiresTime)
    && OptText(ms, "from_prior", m.fromPrior) && OptAttachments(ms, "attachments", m.attachments)
    && m.extraHeaders == Extras(ms)
  }

  lemma StrsOfTexts(items: seq<Json>, v: seq<string>)
    ensures ToStrs(items) == Ok(v) <==> items == Strs(v)
  {
    if ToStrs(items) == Ok(v) {
      forall i | 0 <= i < |items| ensures items[i] == Strs(v)[i] {
        assert items[i] in items;
      }
    }
    if items == Strs(v) {
      ToStrsStrs(v);
    }
  }

  lemma ReadsOptTime(ms: seq<Member>, name: string, o: Option<u64>)
    ensures GetOptU64(ms, name) == Ok(o) <==> OptTime(ms, name, o)
  {
    hide Values;
  }

  lemma ReadsTyp(ms: seq<Member>, typ: string)
    ensures GetTyp(ms) == Ok(typ)
            <==> Sole(ms, "typ", Str(typ)) || (Values(ms, "typ") == [] && typ == "application/didcomm-plain+json")
  {
    hide Values;
  }

  lemma ReadsTo(ms: seq<Member>, o: Option<seq<string>>)
    ensures GetTo(ms) == Ok(o) <==> OptTexts(ms, "to", o)
  {
    hide Values, ToStrs, Strs;
    var vs := Values(ms, "to");
    if |vs| == 1 && vs[0].Arr? {
      if o.Some? {
        StrsOfTexts(vs[0].items, o.value);
      }
      if ToStrs(vs[0].items).Ok? {
        StrsOfTexts(vs[0].items, ToStrs(vs[0].items).value);
      }
    }
  }

  lemma ReadsAttachments(ms: seq<Member>, o: Option<seq<Attachment>>)
    ensures GetAttachments(ms) == Ok(o) <==> OptAttachments(ms, "attachments", o)
  {
    hide Values, AttachmentsFromJson;
    var vs := Values(ms, "attachments");
    if |vs| == 1 && vs[0].Arr? {
      assert Sole(ms, "attachments", Arr(vs[0].items));
    }
  }

  /** An object is read as a message exactly if it spells that message. */
  lemma MessageReadExact(ms: seq<Member>, m: Message)
    ensures MessageFromMembers(ms) == Ok(m) <==> Spells(ms, m)
  {
    hide Values, Extras, GetStr, GetValue, GetTyp, GetOptStr, GetOptU64, GetTo, GetAttachments, Sole, Missing, OptText,
         OptTime, OptTexts, OptAttachments;
    RequiredExact(ms, "id");
    RequiredExact(ms, "type");
    RequiredExact(ms, "body");
    ReadsTyp(ms, m.typ);
    ReadsOptText(ms, "from", m.from);
    ReadsTo(ms, m.to);
    ReadsOptText(ms, "thid", m.thid);
    ReadsOptText(ms, "pthid", m.pthid);
    ReadsOptTime(ms, "created_time", m.createdTime);
    ReadsOptTime(ms, "expires_time", m.expiresTime);
    ReadsOptText(ms, "from_prior", m.fromPrior);
    ReadsAttachments(ms, m.attachments);
  }

  /** The datum of an attachment is the first of these that the members spell: "base64", "json", "links" with
      "hash", and octets as "value". */
  lemma DataReadExact(ms: seq<Member>, jws: Option<string>)
    requires OptText(ms, "jws", jws)
    ensures forall t :: Sole(ms, "base64", Str(t)) ==> DataFromMembers(ms) == Ok(Base64Data(t, jws))
    ensures forall j :: (forall t :: !Sole(ms, "base64", Str(t))) && Sole(ms, "json", j) ==>
                          DataFromMembers(ms) == Ok(JsonData(j, jws))
    ensures forall v, hash :: && (forall t :: !Sole(ms, "base64", Str(t))) && (forall j :: !Sole(ms, "json", j))
                              && Sole(ms, "links", Arr(Strs(v))) && Sole(ms, "hash", Str(hash)) ==>
                                DataFromMembers(ms) == Ok(LinksData(v, hash, jws))
    ensures forall b :: && (forall t :: !Sole(ms, "base64", Str(t))) && (forall j :: !Sole(ms, "json", j))
                        && Values(ms, "links") == [] && Sole(ms, "value", Arr(Nums(b))) ==>
                          DataFromMembers(ms) == Ok(RkyvData(b))
  {
    hide Values, ToStrs, Strs, GetStr, GetValue, GetOptStr, GetArr, ToBytes, Nums;
    RequiredExact(ms, "base64");
    RequiredExact(ms, "json");
    RequiredExact(ms, "links");
    RequiredExact(ms, "hash");
    RequiredExact(ms, "value");
    ReadsOptText(ms, "jws", jws);
    forall v: seq<string> ensures ToStrs(Strs(v)) == Ok(v) {
      ToStrsStrs(v);
    }
    forall b: bytes ensures ToBytes(Nums(b)) == Ok(b) {
      ToBytesNums(b);
    }
  }

  /** A custom header is kept under every name that is not a field: the last value, if there are several. */
  lemma {:induction false} ExtrasExact(ms: seq<Member>, n: string)
    ensures Values(Extras(ms), n)
            == var vs := Values(ms, n); if OwnField(n) || vs == [] then [] else [vs[|vs| - 1]]
  {
    if ms != [] {
      var rest := Extras(ms[1..]);
      ExtrasExact(ms[1..], n);
      ExtrasExact(ms[1..], ms[0].name);
      if OwnField(ms[0].name) || Values(rest, ms[0].name) != [] {
        assert Extras(ms) == rest;
      } else {
        assert Extras(ms)[1..] == rest;
      }
    }
  }
}
