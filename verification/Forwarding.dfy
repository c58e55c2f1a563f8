/** When unpacking follows a Forward message: exactly if the wallet holds a key agreement of the next hop. */
module Forwarding {
  import opened Wrappers
  import opened JsonText
  import opened Serde
  import opened Documents
  import opened Messages
  import opened Envelopes
  import opened Routing
  import opened Unpacking

  /** It can be told whose keys the address stands for: it is a key id, or a DID that resolves. */
  predicate Addressable(next: string, resolver: Resolver) {
    '#' in next || next in resolver
  }

  /** The wallet holds the key id, or a key agreement that the DID's document lists. */
  predicate HoldsKeyFor(next: string, resolver: Resolver, secrets: Secrets) {
    if '#' in next then next in secrets
    else next in resolver && exists k :: k in resolver[next].keyAgreement && k in secrets
  }

  /** The question whether the wallet has a key for the next hop is answered so. */
  lemma HasAgreementSecretExact(next: string, resolver: Resolver, secrets: Secrets)
    ensures HasAgreementSecret(next, resolver, secrets)
            == if Addressable(next, resolver) then Ok(HoldsKeyFor(next, resolver, secrets)) else Err(DIDNotResolved)
  {
    hide DidOrUrl, FindSecrets;
    DidOrUrlExact(next);
    if '#' in next {
      NoneHeld(secrets, [next]);
      assert [next][0] == next;
    } else if next in resolver {
      NoneHeld(secrets, resolver[next].keyAgreement);
    }
  }

  /** The i-th member has this name and value, and no member after it has the name. */
  predicate LastAt(ms: seq<Member>, name: string, v: Json, i: int) {
    0 <= i < |ms| && ms[i] == Member(name, v) && forall j :: i < j < |ms| ==> ms[j].name != name
  }

  /** The last member with this name has this value. */
  predicate LastIs(ms: seq<Member>, name: string, v: Json) {
    exists i :: 0 <= i < |ms| && LastAt(ms, name, v, i)
  }

  /** A Forward message to `next` that carries a JSON value: it has the type of one, its body is an object
      whose last "next" is that address, and its first attachment is that value. */
  predicate IsForward(m: Message, next: string, forwarded: Json) {
    && m.msgType == "https://didcomm.org/routing/2.0/forward"
    && m.body.Obj? && LastIs(m.body.members, "next", Str(next))
    && m.attachments.Some? && m.attachments.value != []
    && m.attachments.value[0].data.JsonData? && m.attachments.value[0].data.json == forwarded
  }

  lemma LastAtExtends(init: seq<Member>, last: Member, name: string, v: Json, i: int)
    ensures LastAt(init + [last], name, v, i)
            <==> if i == |init| then last == Member(name, v) else LastAt(init, name, v, i) && last.name != name
  {
    var ms := init + [last];
    assert ms[|init|] == last && forall i :: 0 <= i < |init| ==> ms[i] == init[i];
  }

  lemma LastExtends(init: seq<Member>, last: Member, name: string, v: Json)
    ensures LastIs(init + [last], name, v) <==> if last.name == name then last.value == v else LastIs(init, name, v)
  {
    hide LastAt;
    forall i ensures LastAt(init + [last], name, v, i)
                     <==> if i == |init| then last == Member(name, v) else LastAt(init, name, v, i) && last.name != name
    {
      LastAtExtends(init, last, name, v, i);
    }
    assert LastAt(init + [last], name, v, |init|) <==> last == Member(name, v);
  }

  lemma {:induction false} LastValueExact(ms: seq<Member>, name: string, v: Json)
    ensures LastValue(ms, name) == Some(v) <==> LastIs(ms, name, v)
  {
    hide LastIs;
    if ms == [] {
      NoLast(name, v);
    } else {
      var init, last := ms[..|ms| - 1], ms[|ms| - 1];
      assert ms == init + [last];
      ValuesConcat(init, [last], name);
      LastExtends(init, last, name, v);
      LastValueExact(init, name, v);
      assert [last][1..] == [];
      assert Values([last], name) == if last.name == name then [last.value] else [];
    }
  }

  lemma NoLast(name: string, v: Json)
    ensures !LastIs([], name, v)
  {
  }

  /** A message is parsed as a Forward exactly if it is one. */
  lemma TryParseForwardExact(m: Message, next: string, forwarded: Json)
    ensures TryParseForward(m) == Some(ParsedForward(next, forwarded)) <==> IsForward(m, next, forwarded)
  {
    hide LastValue;
    if m.body.Obj? {
      LastValueExact(m.body.members, "next", Str(next));
    }
  }

  /** What unpacking does with a peeled envelope: it follows a Forward message for the wallet, leaves any
      other message alone, and fails on a Forward message to a DID that does not resolve. */
  lemma TryUnwrapExact(e: ParsedEnvelope, resolver: Resolver, secrets: Secrets)
    ensures (!e.ParsedMessage? || forall next, j :: !IsForward(e.message, next, j)) ==>
              TryUnwrapForwarded(e, resolver, secrets) == Ok(None)
    ensures forall next, j :: e.ParsedMessage? && IsForward(e.message, next, j) ==>
              TryUnwrapForwarded(e, resolver, secrets)
              == if !Addressable(next, resolver) then Err(DIDNotResolved)
                 else if HoldsKeyFor(next, resolver, secrets) then Ok(Some(Print(j)))
                 else Ok(None)
  {
    hide IsForward, HoldsKeyFor, Addressable, HasAgreementSecret, TryParseForward, Print;
    if e.ParsedMessage? {
      if TryParseForward(e.message).Some? {
        var f := TryParseForward(e.message).value;
        TryParseForwardExact(e.message, f.next, f.forwarded);
        HasAgreementSecretExact(f.next, resolver, secrets);
      }
      forall next, j | IsForward(e.message, next, j)
        ensures TryParseForward(e.message) == Some(ParsedForward(next, j))
      {
        TryParseForwardExact(e.message, next, j);
      }
    }
  }

  /** The loop of unpacking after it peeled a layer with a Forward message in it: it goes on with the
      carried message if and only if it is asked to and the wallet holds a key for the next hop; otherwise
      it stops there; and a DID that does not resolve, or a layer beyond the limit, is an error. */
  lemma LoopFollowsExactly(e: ParsedEnvelope, s: State, resolver: Resolver, secrets: Secrets, o: Options, count: nat,
                           m: Message, after: State, next: string, forwarded: Json)
    requires TryAnoncrypt(e, s, secrets, o) == Ok((Some(ParsedMessage(m)), after))
    requires IsForward(m, next, forwarded)
    ensures PeelForwards(e, s, resolver, secrets, o, count)
            == if count + 1 >= o.limit then Err(TooManyCryptoOperations)
               else if !o.unwrapForward then Ok(Peeled(ParsedMessage(m), after, count + 1))
               else if !Addressable(next, resolver) then Err(DIDNotResolved)
               else if !HoldsKeyFor(next, resolver, secrets) then Ok(Peeled(ParsedMessage(m), after, count + 1))
               else
                 match ReadEnvelope(Print(forwarded))
                 case Err(kind) => Err(kind)
                 case Ok(inner) =>
                   PeelForwards(inner, after.(metadata := after.metadata.(reWrapped := true)), resolver, secrets, o,
                                count + 1)
  {
    hide TryAnoncrypt, TryUnwrapForwarded, ReadEnvelope, IsForward, HoldsKeyFor, Addressable, Print;
    TryUnwrapExact(ParsedMessage(m), resolver, secrets);
  }
}
