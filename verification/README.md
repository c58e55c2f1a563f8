# DIDComm envelopes, routing and the mediator's live streams, in Dafny

This project models two parts of the repository and proves what they promise.

**The DIDComm v2 envelope stack** (crate `affinidi-messaging-didcomm`). A plaintext message is optionally signed,
then encrypted for the keys of a recipient, with or without a sender key, optionally once more to hide the sender,
and then wrapped into one encrypted Forward message for each hop of a route. The receiving side opens these layers
step by step and records in a mutable envelope what it found. Everything between the octets is concrete: UTF-8,
base64url, JSON text, the JSON form of every envelope, compact serialization, key negotiation and routing. The
cryptographic primitives are free symbols (`Symbols.dfy`): a term is coded as octets in a way that can be undone, so
opening undoes sealing under the same inputs and under no others, and Diffie-Hellman depends on the unordered pair of
scalars. Random values are parameters. No primitive is assumed; all its laws are proved of the coding.

**The mediator's protocols** (crate `affinidi-messaging-mediator`). The streaming task with its table of clients and
its index in Redis, the path of a live message from the check to the websocket, the life of a connection with its
counters, and the challenge and response login. Handlers interleave step by step; the theorems hold for every
sequence of steps.

| file | contents |
|---|---|
| `Wrappers`, `Lists`, `Octets`, `Strings`, `Base64Url`, `JsonText`, `Serde` | results and errors, sub-lists, UTF-8, split, join and sort, base64url, JSON text, derived decoding |
| `Symbols`, `Documents` | symbolic cryptography; DID documents, resolver and wallet |
| `Jwe`, `JweCrypto`, `JweTheorems` | the encrypted envelope, encryption and decryption, who can open what |
| `Jws`, `Messages`, `Envelopes`, `Rotation`, `WireFormat` | signatures, messages, the untagged envelope, DID rotation, the JSON on the wire |
| `Packing`, `Negotiation`, `Routing`, `PackEncrypted` | key choice, the choice characterised, Forward messages, packing |
| `ServiceTheorems`, `Contents` | which services and mediators are used, which content and which calls are accepted |
| `Unpacking`, `MetaEnvelopes`, `UnpackTheorems`, `LayerTheorems` | unpacking as functions, the same in place, guarantees for every received text |
| `Forwarding`, `Parties` | when a Forward message is followed, which senders and recipients are taken |
| `RoundTrip`, `Delivery`, `Correspondents`, `Addressees` | whole-stack round trip, the same with premises on documents only, an instance, who cannot unpack |
| `OnionTheorems`, `Multicodec` | the onion of Forward messages, multicodec prefixes |
| `Streaming`, `StreamingTheorems`, `LiveStream` | the streaming task and its index, its guarantees, delivery over whole runs |
| `Sessions`, `SessionTheorems` | the login and its guarantees under interleaving |
| `Sockets`, `SocketStreams` | connections and counters, connections and the task together |

Code that works by assignment is modelled by methods over mutable objects or loops, each proved equal to a function;
the theorems are about these functions. An error of the source is an `Err` with its kind; `Panic` stands for an
`unwrap` of nothing.

Where the code departs from what its comments or names suggest, the code is modelled and the difference is a lemma:
a list of two or more key ids shares its digest with a single one, so recipients are bound only in the exact cases of
`RecipientSetExact`; an Ed25519 key agreement listed first
blocks anonymous encryption (`EdFirstBlocks`); packing does not look at `typ` and unpacking refuses a wrong one
(`PackUnpack`); custom headers can make a message read as an encrypted envelope (`HeadersActAsJwe`); the check of the
service type accepts every type (`TypeIgnored`); a Start or Stop for an unregistered DID leaves
a row that survives a clean start (`StaleRowsExact`); a second connection for a DID is cut off by the end of the first
(`SecondConnectionLoses`); a mediator uuid with a colon is never found live (`LivenessExact`); an update that
finds no session is counted as a success (`SuccessesExact`); a multicodec prefix that is longer than needed leaves octets in the
payload (`OverlongLeavesOctet`).

## Model

| member | source | states |
|---|---|---|
| `Octets.Utf8RoundTrip` | affinidi-messaging-didcomm/src/jwe/encrypt.rs:44-48 | A string read back from its octets is the same string, so texts survive the `as_bytes`/`from_utf8` steps between layers. |
| `Octets.FromUtf8Exact` | affinidi-messaging-didcomm/src/message/unpack/anoncrypt.rs:186-187 | `String::from_utf8` accepts only octets that are the encoding of its result. |
| `Base64Url.DecodeExact` | affinidi-messaging-didcomm/src/jwe/decrypt.rs:48-50 | The strict base64url decoder accepts exactly one spelling of each octet string: decoding gives `b` if and only if the text is the encoding of `b`. |
| `Strings.SplitJoin` | affinidi-messaging-didcomm/src/jws/parse.rs:66-70 | Splitting at a separator undoes joining, for parts without the separator. |
| `Strings.SortCanonical` | affinidi-messaging-didcomm/src/jwe/parse.rs:75-84 | Sorting two lists of key ids gives the same list if and only if they hold the same key ids equally often. |
| `Strings.OrderOfOctets` | affinidi-messaging-didcomm/src/jwe/parse.rs:75-84 | Comparing strings by characters, as the sorting here does, is comparing their UTF-8 octets, as `sort` on strings does. |
| `JsonText.ParsePrint` | affinidi-messaging-didcomm/src/protocols/routing/mod.rs:250-253 | Parsing the compact text of any JSON value gives the same value, escapes and numbers included. |
| `Documents.IsDidExact` | affinidi-messaging-didcomm/src/document.rs:35-38 | A text counts as a DID if and only if it starts with "did:" and has another colon after it. |
| `Documents.DidOrUrlExact` | affinidi-messaging-didcomm/src/document.rs:26-33 | A text is a DID URL if and only if it has a '#'; its DID is what stands before the first one. |
| `Documents.FindSecretsExact` | affinidi-messaging-didcomm/src/secrets/resolvers/example.rs:23-35 | The held key ids are the asked ones that the wallet has, in their order and as often as asked for. |
| `Symbols.AgreeInjective` | affinidi-messaging-didcomm/src/utils/crypto.rs:88-142 | Against a fixed key, the shared secret determines curve and scalar of the other key. |
| `Symbols.OpenExact` | affinidi-messaging-didcomm/src/jwe/decrypt.rs:83-97 | Content opens to a plaintext if and only if text and tag are the sealing of that plaintext under the same key, nonce and header. |
| `Jwe.HeaderRoundTrip` | affinidi-messaging-didcomm/src/jwe/envelope.rs:28-57 | A protected header decodes from its JSON form to itself, for every algorithm name that is not an alias of a known one. |
| `Jwe.JweRoundTrip` | affinidi-messaging-didcomm/src/jwe/envelope.rs:8-76 | Every general JWE decodes from its JSON form to itself. |
| `Jwe.HeaderReadExact` | affinidi-messaging-didcomm/src/jwe/envelope.rs:28-57 | A foreign header is read if and only if each required field stands in it once, the algorithms by their registered names, and "typ", "skid" and "apu" at most once. |
| `JweCrypto.WrapKeys` | affinidi-messaging-didcomm/src/jwe/encrypt.rs:108-143 | The loop that pushes one wrapped key for each recipient computes the list of wrapped keys in the order of the recipients, or the first error. |
| `JweCrypto.Encrypt` | affinidi-messaging-didcomm/src/jwe/encrypt.rs:18-156 | The imperative encryption computes the function that the theorems on encryption and decryption speak of. |
| `JweTheorems.WrappedFor` | affinidi-messaging-didcomm/src/jwe/encrypt.rs:108-143 | The entry found for a key id holds the content key wrapped for the first recipient with that id; there is none for other ids. |
| `JweTheorems.ParsedSealed` | affinidi-messaging-didcomm/src/jwe/parse.rs:33-106 | Every encrypted message parses to the header, sender and recipients of the call, and `verify_didcomm` accepts it. |
| `JweTheorems.DeriveExact` | affinidi-messaging-didcomm/src/utils/crypto.rs:88-142 | Receiver and sender derive the same key-encryption key if and only if they use the two halves of the same key pairs. |
| `JweTheorems.DeriveBinds` | affinidi-messaging-didcomm/src/utils/crypto.rs:88-142 | With the same keys, the derived key is equal if and only if algorithm, `apu`, `apv` and, for ECDH-1PU, the content tag are. |
| `JweTheorems.EntryBound` | affinidi-messaging-didcomm/src/jwe/decrypt.rs:52-81 | The entry for a recipient yields the content key under the `apv` it was wrapped with and, for ECDH-1PU, the tag of its content, and under no other. |
| `JweTheorems.ExchangedFieldsFail` | affinidi-messaging-didcomm/src/jwe/decrypt.rs:16-100 | An encrypted message whose `apv` or tag is exchanged decrypts if and only if they are the original ones. |
| `JweTheorems.ExchangedHeaderFails` | affinidi-messaging-didcomm/src/jwe/decrypt.rs:83-97 | An encrypted message whose protected header is spelled in any other way does not decrypt, even if what was read from it is kept. |
| `JweTheorems.VerifyExact` | affinidi-messaging-didcomm/src/jwe/parse.rs:73-106 | `verify_didcomm` accepts if and only if `apv` is the digest of the recipients' key ids, `apu` is text, and a `skid` comes with an `apu` that spells it. |
| `JweTheorems.ParseJweExact` | affinidi-messaging-didcomm/src/jwe/parse.rs:33-71 | A foreign envelope parses if and only if its protected header, without padding, spells a header in base64url and "apv" and a given "apu" are base64url; all else is malformed. |
| `JweTheorems.DecryptRefused` | affinidi-messaging-didcomm/src/jwe/decrypt.rs:16-100 | How decryption refuses: a sender that the envelope does not name, a key id without entry, or keys that cannot be used together are an invalid state, everything else is malformed. |
| `JweTheorems.DecryptExact` | affinidi-messaging-didcomm/src/jwe/decrypt.rs:16-100 | A recipient decrypts an encrypted message if and only if it holds the private key that was used for its key id and assumes the sender that encrypted; then it gets the plaintext. |
| `JweTheorems.OnePuNeedsSender` | affinidi-messaging-didcomm/src/utils/crypto.rs:91-119 | ECDH-1PU encryption without a sender fails, unless there are no recipients. |
| `JweTheorems.ApvBinds` | affinidi-messaging-didcomm/src/jwe/encrypt.rs:44-48 | For key ids without dots the `apv` digest is equal if and only if the multisets of key ids are, apart from the empty list and one empty key id. |
| `JweTheorems.ManyCollideWithOne` | affinidi-messaging-didcomm/src/jwe/encrypt.rs:44-48 | Every list of two or more key ids has the digest of one key id, all of them joined, and if they are key ids of one DID so is that one. |
| `JweTheorems.BindingExact` | affinidi-messaging-didcomm/src/jwe/encrypt.rs:44-48 | The digest determines a non-empty list of key ids, among all lists or all lists of one DID, if and only if it is a single key id that no dot splits into two ordered key ids. |
| `JweTheorems.DotFreeBindingExact` | affinidi-messaging-didcomm/src/jwe/encrypt.rs:44-48 | Among lists of dot-free key ids the digest determines the list if and only if its own key ids are dot-free, or the hashed text does not split into a sorted list. |
| `JweTheorems.RecipientSetExact` | affinidi-messaging-didcomm/src/jwe/parse.rs:73-106 | For every encrypted message: `verify_didcomm` accepts no other recipient list, of one DID or of any, if and only if there is one recipient whose key id cannot be read as several. |
| `JweTheorems.MergedRecipientAccepted` | affinidi-messaging-didcomm/src/jwe/parse.rs:73-106 | A message for two or more keys of a DID is also accepted with one recipient of that DID in their place, whatever its encrypted key. |
| `JweTheorems.RecipientSetBound` | affinidi-messaging-didcomm/src/jwe/parse.rs:73-106 | Which lists of dot-free key ids `verify_didcomm` accepts for an encrypted message with any recipients: those with the contents of the hashed text split at its dots, if that is sorted; for dot-free recipients, exactly their permutations. |
| `JweTheorems.VerifyPermuted` | affinidi-messaging-didcomm/src/jwe/parse.rs:73-106 | Permuting recipients never changes the verdict of `verify_didcomm`, whatever the key ids. |
| `Jws.JwsRoundTrip` | affinidi-messaging-didcomm/src/jws/envelope.rs:9-51 | Every general JWS decodes from its JSON form to itself. |
| `Jws.ParseSignatures` | affinidi-messaging-didcomm/src/jws/parse.rs:24-55 | The loop that pushes one protected header for each signature computes all headers in order, or the first error. |
| `Jws.CompactRoundTrip` | affinidi-messaging-didcomm/src/jws/parse.rs:65-92 | A compact JWS that was just written splits into three segments and gives back header, payload and signature. |
| `Jws.CompactVerifyExact` | affinidi-messaging-didcomm/src/jws/verify.rs:46-65 | A compact JWS with the signature of a signing call verifies if and only if the key is the signing key and header and payload are what was signed. |
| `Jws.SignedVerifies` | affinidi-messaging-didcomm/src/jws/verify.rs:10-43 | A signed message parses to one header and one signature and verifies for the signer exactly with the signer's key. |
| `Jws.ParseCompactExact` | affinidi-messaging-didcomm/src/jws/parse.rs:65-92 | A text is read as a compact JWS if and only if it is three segments between dots and the first spells a header in base64url; all else is malformed. |
| `Messages.DataRoundTrip` | affinidi-messaging-didcomm/src/message/attachment.rs:166-226 | Every attachment datum decodes to itself from the untagged form, except that `Bytes` becomes `Rkyv`. |
| `Messages.DataReadExact` | affinidi-messaging-didcomm/src/message/attachment.rs:166-226 | Which datum an attachment is read as: the first of "base64", "json", "links" with "hash", and "value" that it spells. |
| `Messages.MessageRoundTripExact` | affinidi-messaging-didcomm/src/message/message.rs:9-75 | A message decodes from its JSON form to itself if and only if no custom header takes the name of a field and no attachment holds raw `Bytes`. |
| `Messages.MessageReadExact` | affinidi-messaging-didcomm/src/message/message.rs:9-75 | An object is read as a message if and only if the required fields stand in it once and the optional ones at most once, a missing "typ" standing for the plaintext one; all other names become custom headers. |
| `Envelopes.JweDecodes` | affinidi-messaging-didcomm/src/envelope.rs:20-33 | The text of a JWE is read as that JWE. |
| `Envelopes.JwsDecodes` | affinidi-messaging-didcomm/src/envelope.rs:20-33 | The text of a JWS is read as that JWS, not as a JWE. |
| `Envelopes.MessageDecodesExact` | affinidi-messaging-didcomm/src/envelope.rs:20-60 | The text of a message is read as that message if and only if its custom headers keep clear of its fields and do not make up a JWE or JWS, and no attachment holds raw `Bytes`. |
| `Envelopes.HeadersActAsJwe` | affinidi-messaging-didcomm/src/envelope.rs:20-33 | A message whose custom headers spell out a JWE is read as that JWE. |
| `Envelopes.MessageTravels` | affinidi-messaging-didcomm/src/message/attachment.rs:187-192 | A message with proper headers is read back with `Bytes` turned into `Rkyv`, and writing it again gives the same JSON. |
| `Rotation.UnpackExact` | affinidi-messaging-didcomm/src/message/from_prior/unpack.rs:28-150 | A signed `from_prior` unpacks, to what was signed and the signing key id, if and only if the resolver publishes that key as an authentication key under that id. |
| `Rotation.RotationRoundTrip` | affinidi-messaging-didcomm/src/message/from_prior/pack.rs:33-188 | What `pack` produced is what `unpack` returns with the reported key id, exactly for a consistent issuer document; the key id is an authentication key of the issuer and the one asked for. |
| `Contents.UnpackFromPriorExact` | affinidi-messaging-didcomm/src/message/from_prior/unpack.rs:28-150 | For every text: which of them unpack as a rotation, and the error of each other one. |
| `Contents.ValidatePackExact` | affinidi-messaging-didcomm/src/message/from_prior/pack.rs:147-188 | A rotation is valid if and only if it is between two different DIDs without fragments and a given issuer key id is a DID URL of the former; it is malformed or an illegal argument otherwise. |
| `Contents.SigningKidExact` | affinidi-messaging-didcomm/src/message/from_prior/pack.rs:47-92 | The key id that signs is the one asked for, if listed and held, or else the first listed one that the wallet holds, with the error of each other case. |
| `Contents.SignerKeyExact` | affinidi-messaging-didcomm/src/message/unpack/sign.rs:61-150 | A key id verifies with the first method of that id, if it is listed for authentication and its key has the type of the algorithm, with the error of each other case. |
| `Contents.PackFromPriorExact` | affinidi-messaging-didcomm/src/message/from_prior/pack.rs:33-145 | `pack` fails for the first reason that applies, each with its error, and otherwise reports the signing key id. |
| `Contents.PackPlaintextExact` | affinidi-messaging-didcomm/src/message/pack_plaintext.rs:28-71 | A plaintext message is refused exactly if its `from_prior` does not unpack, is not a rotation signed by its issuer, or is not to the DID the message is from. |
| `Contents.PackSignedExact` | affinidi-messaging-didcomm/src/message/pack_signed.rs:44-131 | `pack_signed` fails for the first reason that applies, each with its error, and otherwise reports the signing key id. |
| `Packing.FirstFitFits` | affinidi-messaging-didcomm/src/message/pack_encrypted/authcrypt.rs:146-182 | The negotiated sender key is the first that fits some recipient key, and there is none only if none fits. |
| `Negotiation.RecipientKeysExact` | affinidi-messaging-didcomm/src/message/pack_encrypted/anoncrypt.rs:30-79 | The keys looked up for a DID are those of all its listed key agreements, in order; for a key id, of that id alone; a DID that does not resolve, an id that is not listed, too many ids, and an id without a method are errors in this order. |
| `Negotiation.SenderKeysExact` | affinidi-messaging-didcomm/src/message/pack_encrypted/authcrypt.rs:47-101 | The same for the sender, for the listed key agreements that the wallet holds. |
| `Negotiation.LookupErrors` | affinidi-messaging-didcomm/src/message/pack_encrypted/authcrypt.rs:34-145 | A failed lookup is reported as it is: first the recipient's DID, then the sender, then the recipient's keys. |
| `Negotiation.UnlistedKeyRefused` | affinidi-messaging-didcomm/src/message/pack_encrypted/anoncrypt.rs:48-60 | A recipient key id that the document does not list as a key agreement is refused with DIDUrlNotFound. |
| `Negotiation.NoCompatibleExact` | affinidi-messaging-didcomm/src/message/pack_encrypted/authcrypt.rs:146-182 | Past resolution and limit, `authcrypt` fails with NoCompatibleCrypto if and only if no held sender key shares a known algorithm with a recipient key. |
| `Negotiation.AuthcryptExact` | affinidi-messaging-didcomm/src/message/pack_encrypted/authcrypt.rs:58-204 | Past resolution and limit, `authcrypt` succeeds if and only if the first compatible held sender key is usable; it then reports that key id, and as recipients exactly the key agreements with its algorithm, in order, at least one and no more than the limit. |
| `Negotiation.AnoncryptExact` | affinidi-messaging-didcomm/src/message/pack_encrypted/anoncrypt.rs:42-112 | Past resolution and limit, `anoncrypt` succeeds if and only if the first key agreement with a known algorithm can be used for key agreement; it then encrypts for exactly those with that algorithm, in order. |
| `Negotiation.EdFirstBlocks` | affinidi-messaging-didcomm/src/message/pack_encrypted/anoncrypt.rs:81-100 | An Ed25519 key agreement listed first makes `anoncrypt` fail although an X25519 key follows; in the other order it succeeds. |
| `Routing.TypeIgnored` | affinidi-messaging-didcomm/src/protocols/routing/mod.rs:44-64 | A service is accepted or refused in the same way whatever its types are, as long as it has one. |
| `Routing.ResolveServicesChain` | affinidi-messaging-didcomm/src/protocols/routing/mod.rs:181-234 | The loop terminates for every resolver and computes the chain of services. |
| `Routing.ChainShape` | affinidi-messaging-didcomm/src/protocols/routing/mod.rs:181-234 | A resolved chain has at most two services; the first has a uri that is not a DID, all later ones have DIDs. |
| `ServiceTheorems.CheckServiceExact` | affinidi-messaging-didcomm/src/protocols/routing/mod.rs:67-135 | A service is taken if and only if it has a type and its first endpoint that is a map without "accept", or with a readable list with "didcomm/v2", is readable; it is an illegal argument if and only if no endpoint is of that kind, and an invalid state otherwise. |
| `ServiceTheorems.FindServiceExact` | affinidi-messaging-didcomm/src/protocols/routing/mod.rs:148-179 | Without a name the first service that is taken is found, or none; with a name, the first with that fragment, which must be taken. |
| `ServiceTheorems.ChainExact` | affinidi-messaging-didcomm/src/protocols/routing/mod.rs:181-234 | The chain on the documents: the selected service alone if its address is not a DID; otherwise the first usable service of that mediator before it; with the error of each way in which the mediator fails. |
| `ServiceTheorems.CyclicChain` | affinidi-messaging-didcomm/src/protocols/routing/mod.rs:204-212 | Services that name each other as mediators are refused. |
| `ServiceTheorems.DirectWrapped` | affinidi-messaging-didcomm/src/protocols/routing/mod.rs:378-424 | A message for a recipient with an own address is wrapped for exactly its routing keys, and not at all if it has none. |
| `ServiceTheorems.MediatedWrapped` | affinidi-messaging-didcomm/src/protocols/routing/mod.rs:378-424 | A message for a recipient behind a mediator is wrapped for the mediator and then its routing keys, and goes to the address of the mediator's service. |
| `ServiceTheorems.PackedService` | affinidi-messaging-didcomm/src/message/pack_encrypted/mod.rs:128-154 | The reported messaging service is the one the recipient selects, with the address that the message is to be sent to. |
| `Routing.ForwardRoundTrip` | affinidi-messaging-didcomm/src/protocols/routing/mod.rs:240-316 | A Forward message can be built if and only if the message is JSON; read back, it names the next hop and carries that JSON value. |
| `WireFormat.ForwardWire` | affinidi-messaging-didcomm/src/protocols/routing/mod.rs:240-269 | The Forward message spelled out as JSON, with media type, message type, next hop, recipient, custom headers and attachment. |
| `WireFormat.AuthHeader` | affinidi-messaging-didcomm/src/jwe/encrypt.rs:44-78 | The protected header of an authenticated message spelled out as JSON: media type, algorithms, `skid`, `apu`, `apv` and the ephemeral key. |
| `WireFormat.SignedWire` | affinidi-messaging-didcomm/src/jws/sign.rs:9-58 | A signed message spelled out as JSON, with what is signed. |
| `Routing.WrapInForward` | affinidi-messaging-didcomm/src/protocols/routing/mod.rs:341-376 | The reversing and zipping loop computes the onion whose outermost layer is for the first hop; only an empty route panics. |
| `Routing.WrapInForwardIfNeeded` | affinidi-messaging-didcomm/src/protocols/routing/mod.rs:378-424 | The onion is built for the uris of the later services followed by the recipient's routing keys, and never for an empty route, so it does not panic. |
| `Contents.PackRefuses` | affinidi-messaging-didcomm/src/message/pack_encrypted/mod.rs:156-219 | `pack_encrypted` refuses, before all else and as an illegal argument, exactly the calls with a recipient, sender or signer that is not a DID or DID URL, a recipient that the message is not to, or a sender that the message is not from. |
| `Unpacking.AnonDecrypt` | affinidi-messaging-didcomm/src/message/unpack/anoncrypt.rs:69-184 | The decrypt loop leaves the payload of the first key, or of the last if all are tried, or the first error. |
| `Unpacking.AuthDecrypt` | affinidi-messaging-didcomm/src/message/unpack/authcrypt.rs:52-152 | The decrypt loop performs at most one decryption for each held key, at most one if not all keys are asked for, and never reaches the limit on operations. |
| `MetaEnvelopes.MetaEnvelope.Open` | affinidi-messaging-didcomm/src/envelope.rs:86-132 | Opening reads and checks the envelope and fills in sender and recipients, or returns the first error. |
| `MetaEnvelopes.MetaEnvelope.FillFrom` | affinidi-messaging-didcomm/src/jwe/parse.rs:109-219 | The fields that are assigned one by one end in the specified state, or the specified error is returned. |
| `MetaEnvelopes.MetaEnvelope.StepAnoncrypt` | affinidi-messaging-didcomm/src/message/unpack/anoncrypt.rs:24-191 | Peels an anonymous layer and records it in the metadata; leaves an envelope of another kind alone. |
| `MetaEnvelopes.MetaEnvelope.StepAuthcrypt` | affinidi-messaging-didcomm/src/message/unpack/authcrypt.rs:24-161 | Opens an authenticated layer within the budget and records it, filling in the sender if it is not known yet. |
| `MetaEnvelopes.MetaEnvelope.StepSign` | affinidi-messaging-didcomm/src/message/unpack/sign.rs:18-165 | Checks a signature and records it; leaves an envelope of another kind alone. |
| `MetaEnvelopes.MetaEnvelope.StepPlaintext` | affinidi-messaging-didcomm/src/message/unpack/plaintext.rs:7-26 | Validates a plaintext message and records its unpacked `from_prior`. |
| `MetaEnvelopes.MetaEnvelope.UnwrapLayers` | affinidi-messaging-didcomm/src/message/unpack/mod.rs:98-132 | The loop peels anonymous layers as long as they hold Forward messages for the wallet, one operation each. |
| `MetaEnvelopes.MetaEnvelope.UnpackMessage` | affinidi-messaging-didcomm/src/message/unpack/mod.rs:71-167 | The driver composes the loop with the authcrypt, signature and plaintext steps on one mutable envelope. |
| `Forwarding.HasAgreementSecretExact` | affinidi-messaging-didcomm/src/message/unpack/mod.rs:272-305 | For a key id: whether the wallet holds it; for a DID that resolves: whether the wallet holds a key agreement that its document lists; for another DID: DIDNotResolved. |
| `Forwarding.TryParseForwardExact` | affinidi-messaging-didcomm/src/protocols/routing/mod.rs:279-321 | A message is parsed as a Forward message if and only if it has that type, an object as body whose last "next" is text, and a JSON value as first attachment. |
| `Forwarding.LoopFollowsExactly` | affinidi-messaging-didcomm/src/message/unpack/mod.rs:98-132 | The loop goes on with what a Forward message carries if and only if it is asked to and the wallet holds a key for the next hop; it stops there otherwise, and fails on a DID that does not resolve. |
| `Parties.AgreementKeyExact` | affinidi-messaging-didcomm/src/jwe/parse.rs:119-181 | The sender's key is the one that the document of its DID lists as a key agreement and gives for its key id, with the error of each way not to have one. |
| `Parties.RecipientsExact` | affinidi-messaging-didcomm/src/jwe/parse.rs:183-219 | The recipients must be of one DID and the wallet must hold one of them; then the first is recorded, and all that are held. |
| `Parties.SenderRefused` | affinidi-messaging-didcomm/src/envelope.rs:86-132 | An envelope whose sender cannot be looked up is refused with the error of that lookup, whatever else it holds. |
| `Parties.AuthOneExact` | affinidi-messaging-didcomm/src/message/unpack/authcrypt.rs:68-146 | Which pairs of keys an authenticated envelope can be opened with, and which of the others are malformed or unsupported. |
| `Parties.TrySignExact` | affinidi-messaging-didcomm/src/message/unpack/sign.rs:18-165 | The signature step takes exactly one signature, whose key id must be a DID URL of a DID that resolves, whose key that document gives, and which must be that key's over header and payload as they are; with the error of each other case. |
| `Parties.ContentExact` | affinidi-messaging-didcomm/src/message/unpack/mod.rs:134-167 | What is left when encryption is opened must be a message with the plaintext `typ`, or signed and hold one; its rotation must unpack and is reported; all else is refused with its error. |
| `UnpackTheorems.SamePlaintext` | affinidi-messaging-didcomm/src/jwe/decrypt.rs:38-97 | Any two decryptions of one parsed JWE that succeed give the same plaintext, whatever keys and senders they use. |
| `UnpackTheorems.AnonKeysAgree` | affinidi-messaging-didcomm/src/message/unpack/anoncrypt.rs:69-184 | If the anoncrypt loop succeeds with all keys, it succeeds with the first one and gives the same payload. |
| `UnpackTheorems.AuthKeysAgree` | affinidi-messaging-didcomm/src/message/unpack/authcrypt.rs:52-152 | The same for the authcrypt loop, under its budget. |
| `UnpackTheorems.AllKeysAgree` | affinidi-messaging-didcomm/src/message/unpack/mod.rs:71-167 | Whenever unpacking succeeds with all keys expected, it returns the same message and metadata with the first key only, through all layers, for every text. |
| `UnpackTheorems.BudgetExact` | affinidi-messaging-didcomm/src/message/unpack/authcrypt.rs:53-66 | The authcrypt loop ends in TooManyCryptoOperations if and only if fewer decryptions are allowed than keys are held, and it gets through all that are allowed. |
| `UnpackTheorems.MetadataSound` | affinidi-messaging-didcomm/src/message/unpack/mod.rs:227-270 | For every text that unpacks, whoever made it, the fields of the metadata agree: encrypted, anonymous, authenticated and signed are set exactly if an algorithm of that kind is reported, sender, signer and earlier DID are named exactly then, and the message has the plaintext `typ`. |
| `UnpackTheorems.SignedSound` | affinidi-messaging-didcomm/src/message/unpack/sign.rs:18-165 | For every text that unpacks as signed: the reported signature was made with a key that the signer's document lists for authentication, over a payload that reads as exactly the returned message. |
| `LayerTheorems.AnonSound` | affinidi-messaging-didcomm/src/message/unpack/anoncrypt.rs:24-191 | For every text that unpacks: the envelope that the last steps finish with was reached by a number of anonymous layers, each decrypted with a key of the wallet that it names; the number is zero exactly if the sender is not reported anonymous, and the reported algorithm is that of the innermost layer. |
| `LayerTheorems.AuthSound` | affinidi-messaging-didcomm/src/message/unpack/authcrypt.rs:24-161 | For every text that unpacks with an algorithm of authenticated encryption reported: the envelope reached was decrypted with a key of the wallet that it names and with the key that the reported sender's document gives as a key agreement, and message and metadata are what that payload finishes to. |
| `RoundTrip.AnonLayer` | affinidi-messaging-didcomm/src/message/unpack/anoncrypt.rs:24-191 | The anoncrypt step recognises an anonymous layer and returns what it holds, for one key or all keys, leaving the rest of the state alone. |
| `RoundTrip.AuthLayer` | affinidi-messaging-didcomm/src/message/unpack/authcrypt.rs:24-161 | The authcrypt step opens an authenticated layer and names its sender, whether the sender is known before or not. |
| `RoundTrip.ContentUnpacks` | affinidi-messaging-didcomm/src/message/pack_signed.rs:44-122 | A plaintext or signed message unpacks to itself, with exactly the metadata of its content: signing key, algorithm, signed message and unpacked `from_prior`; a wrong `typ` is refused. |
| `RoundTrip.PackUnpack` | affinidi-messaging-didcomm/src/message/pack_encrypted/mod.rs:77-154 | Whole-stack round trip: for every message, sender, signer, protection and algorithm, what packs and is not forwarded is unpacked by the recipient as the same message, with every field of the metadata determined by how it was packed. |
| `Delivery.DocumentsDeliver` | affinidi-messaging-didcomm/src/message/pack_encrypted/mod.rs:77-154 | The same with premises on documents and wallets only, for any keys on any curves: if they lead to an algorithm that the recipient holds a key with, packing succeeds, encrypts for exactly the key agreements with it, and delivers. |
| `Correspondents.AlwaysDelivered` | affinidi-messaging-didcomm/src/message/pack_encrypted/mod.rs:77-154 | An instance in which all premises hold: for two parties with one agreement key and one signing key each, every message without `from_prior` between them and every choice of sender, signer, protection and algorithm, packing succeeds and delivers. |
| `Addressees.AnonOnlyForRecipients` | affinidi-messaging-didcomm/src/message/unpack/anoncrypt.rs:24-191 | Only a wallet with the private part of an addressed key unpacks an anonymous message; one without any of the keys is told SecretNotFound. |
| `Addressees.AuthOnlyForRecipients` | affinidi-messaging-didcomm/src/message/unpack/authcrypt.rs:24-161 | Only a wallet with the private part of an addressed key unpacks an authenticated message, and only if the sender's document gives the key that the sender used. |
| `OnionTheorems.HopUnpacks` | affinidi-messaging-didcomm/src/protocols/routing/mod.rs:240-316 | The holder of a hop's keys unpacks its layer to the Forward message for the next hop. |
| `OnionTheorems.OnionDelivers` | affinidi-messaging-didcomm/src/protocols/routing/mod.rs:341-376 | For routes of any length: the mediators read exactly the rest of the route and then the recipient, and after the last of them the wrapped message is left as the same JSON value. |
| `OnionTheorems.PackRelayUnpack` | affinidi-messaging-didcomm/src/message/pack_encrypted/mod.rs:77-154 | End to end: a forwarded message, passed on by the mediators of the route, reaches the recipient and unpacks to what was packed. |
| `OnionTheorems.LoopPeelsOnion` | affinidi-messaging-didcomm/src/message/unpack/mod.rs:98-132 | If one wallet holds the keys of the whole route, the unpacking loop peels all layers by itself, at one operation each, and marks the message as re-wrapped. |
| `Multicodec.FromMulticodec` | affinidi-messaging-didcomm/src/document.rs:423-436 | Reading the prefix, writing it again and dropping as many octets computes the split of codec and payload. |
| `Multicodec.ReadWrite` | affinidi-messaging-didcomm/src/document.rs:424-433 | Reading a varint undoes writing it, for every number, and leaves what follows alone. |
| `Multicodec.SplitPrefixed` | affinidi-messaging-didcomm/src/document.rs:411-436 | For each codec and every payload, the written prefix and the payload are told apart. |
| `Multicodec.SplitExact` | affinidi-messaging-didcomm/src/document.rs:423-436 | Splitting never reaches past the end; it fails exactly for a prefix that is no 32-bit number or that of no known codec, and returns what follows the prefix if and only if that has its shortest form. |
| `Multicodec.OverlongLeavesOctet` | affinidi-messaging-didcomm/src/document.rs:423-436 | For each codec and every payload, behind a prefix one octet longer than needed the payload comes out with a zero octet in front. |
| `Streaming.Database.CleanStart` | affinidi-messaging-mediator/src/database/streaming.rs:7-54 | Popping sessions one by one, in any order, removes exactly their rows and empties the set. |
| `Streaming.Database.IsClientLive` | affinidi-messaging-mediator/src/database/streaming.rs:60-112 | Reads the row of a DID: the uuid in it if it is live or delivery is forced. |
| `Streaming.StreamingTask.constructor` | affinidi-messaging-mediator/src/tasks/websocket_streaming.rs:127-131 | The task starts with a cleaned index and no clients. |
| `Streaming.StreamingTask.Handle` | affinidi-messaging-mediator/src/tasks/websocket_streaming.rs:142-226 | Each command and each pub/sub record changes table, channels and index as specified, in place. |
| `Streaming.StreamingTask.Serve` | affinidi-messaging-mediator/src/tasks/websocket_streaming.rs:135-230 | The loop over any sequence of events leads to the state that the theorems speak of. |
| `StreamingTheorems.MemoryExact` | affinidi-messaging-mediator/src/tasks/websocket_streaming.rs:187-226 | After any sequence of events a DID has a client if and only if it was registered and not deregistered since; the client is that of the last registration, and active if and only if the last command was Start. |
| `StreamingTheorems.RowsExact` | affinidi-messaging-mediator/src/database/streaming.rs:190-366 | After any sequence of events the row of a DID is that of the last command about it, or the one left by the clean start. |
| `StreamingTheorems.IndexAgrees` | affinidi-messaging-mediator/src/tasks/websocket_streaming.rs:142-226 | After any sequence of events the session set is the key set of the clients, and each client's row names this mediator with exactly its active flag. |
| `StreamingTheorems.StaleRowsExact` | affinidi-messaging-mediator/src/tasks/websocket_streaming.rs:198-218 | For every DID: it has a row and no client if and only if it is not registered and the last command was Start or Stop, or no command was about it and it had a row that the clean start left; and exactly these rows survive the clean start of the next task. |
| `StreamingTheorems.LivenessExact` | affinidi-messaging-mediator/src/database/streaming.rs:60-112 | Other handlers find a registered client if and only if it is active or delivery is forced, and the uuid has no colon. |
| `StreamingTheorems.DeliveryExact` | affinidi-messaging-mediator/src/tasks/websocket_streaming.rs:142-164 | Each connection's channel holds exactly the records for DIDs that it owned when they were taken, if they were forced or live. |
| `StreamingTheorems.NothingDelivered` | affinidi-messaging-mediator/src/tasks/websocket_streaming.rs:148-164 | For a DID without a client no record reaches any connection, even if forced, until it is registered again. |
| `LiveStream.DeliverySafe` | affinidi-messaging-mediator/src/messages/inbound.rs:170-206 | Over whole runs and all interleavings: what a connection is sent is an order-preserving part of what was published on this mediator's channel, each record forced or sent while the client was active. |
| `LiveStream.PublishedWasLive` | affinidi-messaging-mediator/src/messages/inbound.rs:186-206 | Every published record was found live, or forced, by a check earlier in the run. |
| `LiveStream.LiveDelivered` | affinidi-messaging-mediator/src/messages/inbound.rs:170-206 | After any run that left nothing queued, a record for an active client, or a forced one, is delivered on the client's connection by a check, its publishing and the task. |
| `LiveStream.CommandsHandled` | affinidi-messaging-mediator/src/tasks/websocket_streaming.rs:187-226 | In every run the task handles exactly the commands that were issued, in their order. |
| `Sessions.SessionDatabase.CreateSession` | affinidi-messaging-mediator/src/database/session.rs:111-143 | Writes the three fields of the session and counts it. |
| `Sessions.SessionDatabase.GetSession` | affinidi-messaging-mediator/src/database/session.rs:63-106 | Returns a session if and only if all fields are there and the state is a known one. |
| `Sessions.SessionDatabase.UpdateAuthenticated` | affinidi-messaging-mediator/src/database/session.rs:165-202 | Reports failure exactly if the old session is missing; the other commands of the transaction take effect in any case. |
| `Sessions.CheckSessionExact` | affinidi-messaging-mediator/src/handlers/authenticate.rs:172-207 | A session passes if and only if its hash has the three fields, its state is "ChallengeSent" and a named sender is its DID; and how each other hash is refused. |
| `Sessions.ReadResponseExact` | affinidi-messaging-mediator/src/handlers/authenticate.rs:97-170 | A response is read if and only if the text unpacks to a message of the authentication type that has not expired, with a challenge and a session id as body. |
| `Sessions.AuthenticationResponse` | affinidi-messaging-mediator/src/handlers/authenticate.rs:93-278 | Tokens are returned if and only if the response is read and the stored hash has its three fields, state "ChallengeSent" and the DID of a named sender; subject, session id and expiries are those of the hash; each other case is refused as it is, and leaves the stored sessions alone. |
| `SessionTheorems.AlwaysSound` | affinidi-messaging-mediator/src/handlers/authenticate.rs:172-260 | The invariant on challenges, pending responses, logins and stored records, kept by every step of every interleaving. |
| `SessionTheorems.LoginAtMostOnce` | affinidi-messaging-mediator/src/handlers/authenticate.rs:172-260 | In every interleaving at most one token pair is returned for a session id, and its subject is the DID of the challenge made for that id. |
| `SessionTheorems.LoginSender` | affinidi-messaging-mediator/src/handlers/authenticate.rs:175-190 | Each login goes back to a response of the run, and if that named a sender, it is the subject of the tokens. |
| `SessionTheorems.AnsweredChallengeLogsIn` | affinidi-messaging-mediator/src/handlers/authenticate.rs:172-260 | After any run, a challenge that is answered by its own DID, or without a sender, leads to a login and to an authenticated session under the new id. |
| `SessionTheorems.ExpiredRefused` | affinidi-messaging-mediator/src/handlers/authenticate.rs:172-190 | A response to an expired challenge is refused and changes nothing. |
| `SessionTheorems.AuthenticatedHasLogin` | affinidi-messaging-mediator/src/database/session.rs:63-202 | A stored session that reads as authenticated is that of exactly one login, for the same DID. |
| `SessionTheorems.SuccessesExact` | affinidi-messaging-mediator/src/database/session.rs:175-189 | In every run the success counter is the number of logins plus the number of updates that found no session to rename, so it is the number of logins if and only if no update missed. |
| `SessionTheorems.MissExplained` | affinidi-messaging-mediator/src/handlers/authenticate.rs:256-260 | An update finds no session only if the challenge was used for a login before or has expired. |
| `SessionTheorems.SuccessesOvercount` | affinidi-messaging-mediator/src/database/session.rs:175-189 | A run in which the counter is wrong: two responses that read the same challenge count two successes and log in once, and what the loser leaves cannot be read. |
| `Sockets.ServeLoop` | affinidi-messaging-mediator/src/handlers/websocket.rs:67-111 | The loop ends exactly at a text over the limit or at the end of either stream; until then it passes on what the task sends, in order, and its texts lead to Start and Stop commands in order. |
| `Sockets.HandleSocket` | affinidi-messaging-mediator/src/handlers/websocket.rs:38-132 | The log shared by all handlers grows by exactly the effects on the way to the phase that the inputs lead to, in their order: registering, counting open, deregistering, counting closed; a handler that cannot register does nothing. |
| `Sockets.ServedExact` | affinidi-messaging-mediator/src/handlers/websocket.rs:67-111 | What the loop serves is everything before the first text over the limit or end of a stream; any other input keeps the connection open. |
| `Sockets.TrailExact` | affinidi-messaging-mediator/src/handlers/websocket.rs:45-126 | In every interleaving each handler has done exactly the steps up to its phase, in order: it deregisters before it counts itself closed. |
| `Sockets.CountersExact` | affinidi-messaging-mediator/src/database/stats.rs:143-187 | The open count minus the close count is the number of handlers between their two counter updates. |
| `Sockets.HandlerFinishes` | affinidi-messaging-mediator/src/handlers/websocket.rs:38-132 | After any run, a new handler whose registration is taken can go through its whole life, adding its effects in order and counting itself open and closed once. |
| `SocketStreams.ClientsAreAttached` | affinidi-messaging-mediator/src/handlers/websocket.rs:45-120 | Once all commands of the handlers are handled, among any Start, Stop and pub/sub events, each client is a connection that registered for that DID and has not deregistered. |
| `SocketStreams.ClientExactly` | affinidi-messaging-mediator/src/handlers/websocket.rs:45-120 | An attached connection is the client of its DID if and only if no other connection of that DID registered or deregistered after it. |
| `SocketStreams.AloneIsClient` | affinidi-messaging-mediator/src/handlers/websocket.rs:45-120 | With one connection for the DID, it is the client as long as it is attached. |
| `SocketStreams.LeavingDetachesOther` | affinidi-messaging-mediator/src/handlers/websocket.rs:113-120 | In every world: when one of two attached connections of a DID deregisters, the other stays attached and the DID has no client. |
| `SocketStreams.SecondConnectionLoses` | affinidi-messaging-mediator/src/handlers/websocket.rs:101-120 | A run of two connections of one DID after which the second is attached, and nothing for the DID reaches any connection any more. |

## Left out

- Real cryptography: keys, curves, AES, ChaCha, SHA-256 bits and key lengths are symbols; nothing is claimed about secrecy or about the in-place decryption buffer.
- JSON that `serde_json` reads but never writes: white space, fractions and exponents, and `\u` escapes of surrogates; and the alphabetical order that a `Value` gives to its members, since an object here keeps its document order.
- The limits of `serde_json`: it refuses to read values nested more than 127 deep, so a message with a deeper body packs and does not unpack there; and integers outside 64 bits become floating-point numbers.
- A JSON text that breaks off: the source reports the end of input as InvalidState and any other bad JSON as Malformed; here both are Malformed.
- Derived decoders also read a struct from a JSON array of its fields; here only objects are read.
- Repeated names inside a `Value`: an object here keeps all of them and the readers of the crate's own types refuse them, as derived decoders do.
- DID resolution, caching and the decoding of verification methods into keys: the resolver is a finite map to documents whose methods already have their keys; an unsupported key is one value.
- The fragment that selects a messaging service is compared with the fragment of the service id; the lookup itself is library code that is not part of this model.
- Secrets in Base58 and multibase form: a wallet holds key pairs; only the multicodec prefix is modelled.
- The varint library is not part of this model: reading here accepts any length whose value fits in 32 bits.
- The chained setters of the message, attachment and `from_prior` builders: they would only add easy members.
- What a failed unpacking leaves in the mutable envelope; the document of the sender that it also keeps.
- The exact text of errors, logging, and the arithmetic in log lines (`clients.len()-1` on an empty table).
- Two readings of the clock in one login are one value; random ids are never drawn twice; Redis commands succeed, except a RENAME of a missing key.
- Several mediators that write the same row; expiry times as durations (a session may expire at any step).
- The content of inbound protocol messages, the message store, its Lua functions other than the clean start, HTTP routing, the SDK client and configuration.
- Deadlock and progress of the bounded channels: only safety is proved.
- Sockets.HandleSocket: does not model the processing of inbound messages, of which only the Start and Stop commands appear here.
- Sessions.AuthenticationResponse: does not model the encoding of the tokens, only their claims.
