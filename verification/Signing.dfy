/** Nested signatures of service messages, under an ideal signature scheme. */
module Signing {
  import opened Common

  /** A meta header; forwarding a message wraps it. */
  datatype Meta = Meta(content: nat, origin: Option<Meta>)

  /** A verification header: signatures of the body, the meta header and the wrapped verification header. */
  datatype Verification = Verification(body: Option<Signature>, meta: Option<Signature>, origin: Option<Signature>,
                                       inner: Option<Verification>)

  /** What a signature is taken over; a missing part is signed as no data. */
  datatype Data = NoData | BodyData(body: nat) | MetaData(meta: Meta) | VerificationData(header: Verification)

  /** An ideal signature names its key and exactly the data it was made for. */
  datatype Signature = Signature(key: nat, data: Data)

  function OfBody(b: Option<nat>): Data {
    if b.Some? then BodyData(b.value) else NoData
  }

  function OfMeta(m: Option<Meta>): Data {
    if m.Some? then MetaData(m.value) else NoData
  }

  function OfVerification(v: Option<Verification>): Data {
    if v.Some? then VerificationData(v.value) else NoData
  }

  function OriginOf(m: Option<Meta>): Option<Meta> {
    if m.Some? then m.value.origin else None
  }

  predicate VerifyPart(d: Data, s: Option<Signature>) {
    s.Some? && s.value.data == d
  }

  /** One level of the nested check; the recursion follows the verification header. */
  predicate VerifyLevel(body: Option<nat>, meta: Option<Meta>, v: Verification)
    decreases v
  {
    && VerifyPart(OfMeta(meta), v.meta)
    && VerifyPart(OfVerification(v.inner), v.origin)
    && if v.inner == None then VerifyPart(OfBody(body), v.body)
       else v.body == None && VerifyLevel(body, OriginOf(meta), v.inner.value)
  }

  predicate VerifyMessage(body: Option<nat>, meta: Option<Meta>, v: Option<Verification>) {
    v.Some? && VerifyLevel(body, meta, v.value)
  }

  /** The verification header that signing puts around the present one. */
  function SignedHeader(key: nat, body: Option<nat>, meta: Option<Meta>, v: Option<Verification>): Verification {
    Verification(if v == None then Some(Signature(key, OfBody(body))) else None,
                 Some(Signature(key, OfMeta(meta))), Some(Signature(key, OfVerification(v))), v)
  }

  class ServiceMessage {
    var body: Option<nat>
    var meta: Option<Meta>
    var verification: Option<Verification>

    constructor (b: Option<nat>, m: Option<Meta>)
      ensures body == b && meta == m && verification == None
    {
      body, meta, verification := b, m, None;
    }

    /** Signs the message: the body only the first time, then the meta header and the header so far. */
    method Sign(key: nat)
      modifies this`verification
      ensures verification == Some(SignedHeader(key, body, meta, old(verification)))
    {
      var bodySignature: Option<Signature> := None;
      if verification == None {
        bodySignature := Some(Signature(key, OfBody(body)));
      }
      var metaSignature := Signature(key, OfMeta(meta));
      var originSignature := Signature(key, OfVerification(verification));
      verification := Some(Verification(bodySignature, Some(metaSignature), Some(originSignature), verification));
    }

    /** What an intermediate server does: wraps the meta header and signs again. */
    method Forward(content: nat, key: nat)
      modifies this`meta, this`verification
      ensures meta == Some(Meta(content, old(meta)))
      ensures verification == Some(SignedHeader(key, body, Some(Meta(content, old(meta))), old(verification)))
    {
      meta := Some(Meta(content, meta));
      Sign(key);
    }

    /** Signing and any number of forwardings leave a message that verifies. */
    method Travel(key: nat, hops: seq<(nat, nat)>)
      requires verification == None
      modifies this`meta, this`verification
      ensures VerifyMessage(body, meta, verification)
      ensures Depth(verification.value) == |hops|
    {
      Sign(key);
      SignVerifiesIff(key, body, meta, None);
      for i := 0 to |hops|
        invariant VerifyMessage(body, meta, verification) && Depth(verification.value) == i
      {
        SignVerifiesIff(hops[i].1, body, Some(Meta(hops[i].0, meta)), verification);
        Forward(hops[i].0, hops[i].1);
      }
    }
  }

  /** A newly signed message verifies if and only if it was unsigned before, or what was signed before
      verifies against the wrapped meta header. */
  lemma SignVerifiesIff(key: nat, body: Option<nat>, meta: Option<Meta>, v: Option<Verification>)
    ensures VerifyMessage(body, meta, Some(SignedHeader(key, body, meta, v)))
            <==> v == None || VerifyLevel(body, OriginOf(meta), v.value)
  {
  }

  // ---- What verification establishes ----

  /** Number of wrapped verification headers. */
  function Depth(v: Verification): nat {
    if v.inner == None then 0 else 1 + Depth(v.inner.value)
  }

  function HeaderAt(v: Verification, k: nat): Verification
    requires k <= Depth(v)
  {
    if k == 0 then v else HeaderAt(v.inner.value, k - 1)
  }

  function MetaAt(m: Option<Meta>, k: nat): Option<Meta> {
    if k == 0 then m else MetaAt(OriginOf(m), k - 1)
  }

  /** Level `k`: its meta signature covers the meta header at the same depth, its origin signature the next
      verification header, and a body signature stands at the innermost level and nowhere else. */
  ghost predicate LevelSigned(body: Option<nat>, meta: Option<Meta>, v: Verification, k: nat)
    requires k <= Depth(v)
  {
    var h := HeaderAt(v, k);
    && VerifyPart(OfMeta(MetaAt(meta, k)), h.meta)
    && VerifyPart(OfVerification(h.inner), h.origin)
    && (if k == Depth(v) then VerifyPart(OfBody(body), h.body) else h.body == None)
  }

  /** A message verifies if and only if all levels of its verification header are signed. */
  lemma {:induction false} VerifiedIffAllLevelsSigned(body: Option<nat>, meta: Option<Meta>, v: Verification)
    ensures VerifyLevel(body, meta, v) <==> forall k: nat :: k <= Depth(v) ==> LevelSigned(body, meta, v, k)
    decreases v
  {
    if v.inner == None {
      assert Depth(v) == 0;
      assert LevelSigned(body, meta, v, 0) <==> VerifyLevel(body, meta, v);
    } else {
      var w := v.inner.value;
      VerifiedIffAllLevelsSigned(body, OriginOf(meta), w);
      InnerLevels(body, meta, v);
    }
  }

  lemma InnerLevels(body: Option<nat>, meta: Option<Meta>, v: Verification)
    requires v.inner.Some?
    ensures (forall k: nat :: k <= Depth(v) ==> LevelSigned(body, meta, v, k))
            <==> LevelSigned(body, meta, v, 0)
                 && forall k: nat :: k <= Depth(v.inner.value) ==> LevelSigned(body, OriginOf(meta), v.inner.value, k)
  {
    var w := v.inner.value;
    forall k: nat | k <= Depth(w) ensures LevelSigned(body, OriginOf(meta), w, k) <==> LevelSigned(body, meta, v, k + 1) {
    }
    if LevelSigned(body, meta, v, 0) && forall k: nat :: k <= Depth(w) ==> LevelSigned(body, OriginOf(meta), w, k) {
      forall k: nat | k <= Depth(v) ensures LevelSigned(body, meta, v, k) {
        if k > 0 {
          assert LevelSigned(body, OriginOf(meta), w, k - 1);
        }
      }
    }
  }

  /** One verification header fits one body and one meta header only: any change to them is noticed. */
  lemma {:induction false} VerifiedMessageUnique(body: Option<nat>, meta: Option<Meta>, body': Option<nat>, meta': Option<Meta>, v: Verification)
    requires VerifyLevel(body, meta, v) && VerifyLevel(body', meta', v)
    ensures body == body' && meta == meta'
    decreases v
  {
    if v.inner.Some? {
      VerifiedMessageUnique(body, OriginOf(meta), body', OriginOf(meta'), v.inner.value);
    }
  }

  /** An origin signature fits one inner header only: a verified message cannot be re-wrapped around another. */
  lemma OriginFitsOneHeader(body: Option<nat>, meta: Option<Meta>, v: Verification, body': Option<nat>, meta': Option<Meta>, v': Verification)
    requires VerifyLevel(body, meta, v) && VerifyLevel(body', meta', v') && v.origin == v'.origin
    ensures v.inner == v'.inner
  {
    assert v.origin.value.data == OfVerification(v.inner) == OfVerification(v'.inner);
  }

  /** Hence messages that verify and agree in their outermost signatures agree in everything, at every depth. */
  lemma OutermostFits(body: Option<nat>, meta: Option<Meta>, v: Verification, body': Option<nat>, meta': Option<Meta>, v': Verification)
    requires VerifyLevel(body, meta, v) && VerifyLevel(body', meta', v')
    requires v.origin == v'.origin && v.meta == v'.meta && v.body == v'.body
    ensures v == v' && body == body' && meta == meta'
  {
    OriginFitsOneHeader(body, meta, v, body', meta', v');
    VerifiedMessageUnique(body, meta, body', meta', v);
  }
}
