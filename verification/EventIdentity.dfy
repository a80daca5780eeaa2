/**
  Event identity (internal/events/events.go): which specs share an event id.

  The id is a truncated SHA-256 of the bytes `Preimage` builds, so two specs
  collapse into one event row exactly when those bytes are equal.
 */
module EventIdentity {
  import opened CanonicalJson
  import opened Sequences

  /** The identity-bearing fields of `events.Spec`; strings are Go byte strings. */
  datatype Spec = Spec(
    subjectKind: seq<Byte>,
    subjectId: seq<Byte>,
    kind: seq<Byte>,
    payload: Json,
    discriminator: seq<Byte>)

  predicate NoColon(s: seq<Byte>) {
    Free(s, COLON)
  }

  /** A spec as the domain constants build it: 16-byte ids and colon-free kinds. */
  predicate WellFormed(s: Spec) {
    && |s.subjectId| == 16
    && NoColon(s.subjectKind)
    && NoColon(s.kind)
  }

  /** What `DeterministicID` feeds to the hash. */
  ghost function Preimage(s: Spec): (e: seq<Byte>) {
    s.subjectKind + [COLON] + s.subjectId + [COLON] + s.kind + [COLON] + Canonical(s.payload)
    + (if s.discriminator == [] then [] else [COLON] + s.discriminator)
  }

  /** The tail of the preimage after a payload, which is always delimited. */
  function DiscriminatorPart(d: seq<Byte>): (e: seq<Byte>)
    ensures Delimits(e)
  {
    if d == [] then [] else [COLON] + d
  }

  predicate SameIdentity(s: Spec, t: Spec) {
    && s.subjectKind == t.subjectKind
    && s.subjectId == t.subjectId
    && s.kind == t.kind
    && s.discriminator == t.discriminator
    && Normalize(s.payload) == Normalize(t.payload)
  }

  lemma PreimageShape(s: Spec)
    ensures Preimage(s) == s.subjectKind + ([COLON] + (s.subjectId + ([COLON] + (s.kind + ([COLON]
                           + (Canonical(s.payload) + DiscriminatorPart(s.discriminator)))))))
  {
    var c, d := Canonical(s.payload), DiscriminatorPart(s.discriminator);
    Assoc(s.subjectKind + [COLON] + s.subjectId + [COLON] + s.kind + [COLON], c, d);
    Assoc(s.subjectKind + [COLON] + s.subjectId + [COLON] + s.kind, [COLON], c + d);
    Assoc(s.subjectKind + [COLON] + s.subjectId + [COLON], s.kind, [COLON] + (c + d));
    Assoc(s.subjectKind + [COLON] + s.subjectId, [COLON], s.kind + ([COLON] + (c + d)));
    Assoc(s.subjectKind + [COLON], s.subjectId, [COLON] + (s.kind + ([COLON] + (c + d))));
    Assoc(s.subjectKind, [COLON], s.subjectId + ([COLON] + (s.kind + ([COLON] + (c + d)))));
  }

  lemma DiscriminatorPartInjective(d: seq<Byte>, e: seq<Byte>)
    requires DiscriminatorPart(d) == DiscriminatorPart(e)
    ensures d == e
  {
    if d != [] && e != [] {
      EqualPrefix([COLON], [COLON], d, e);
    }
  }

  /**
    Two specs hash the same bytes exactly when they describe the same event:
    equal subject, kind and discriminator and payloads equal as JSON values,
    where a null payload is the empty object.
   */
  lemma PreimageIdentity(s: Spec, t: Spec)
    requires WellFormed(s) && WellFormed(t)
    ensures Preimage(s) == Preimage(t) <==> SameIdentity(s, t)
  {
    if Preimage(s) == Preimage(t) {
      PreimageShape(s);
      PreimageShape(t);
      var sp := Canonical(s.payload) + DiscriminatorPart(s.discriminator);
      var tp := Canonical(t.payload) + DiscriminatorPart(t.discriminator);
      var sk, tk := s.kind + ([COLON] + sp), t.kind + ([COLON] + tp);
      Assoc(s.subjectKind, [COLON], s.subjectId + ([COLON] + sk));
      Assoc(t.subjectKind, [COLON], t.subjectId + ([COLON] + tk));
      Apart(s.subjectKind, s.subjectId + ([COLON] + sk), t.subjectKind, t.subjectId + ([COLON] + tk), COLON);
      EqualPrefix(s.subjectId, t.subjectId, [COLON] + sk, [COLON] + tk);
      EqualPrefix([COLON], [COLON], sk, tk);
      Assoc(s.kind, [COLON], sp);
      Assoc(t.kind, [COLON], tp);
      Apart(s.kind, sp, t.kind, tp, COLON);
      WriteUnambiguous(Normalize(s.payload), Normalize(t.payload),
                       DiscriminatorPart(s.discriminator), DiscriminatorPart(t.discriminator));
      DiscriminatorPartInjective(s.discriminator, t.discriminator);
    }
  }

  /** With a hash that tells the two preimages apart, the event id is shared exactly by specs of one identity. */
  lemma EventIdIdentity<Id>(hash: seq<Byte> -> Id, s: Spec, t: Spec)
    requires WellFormed(s) && WellFormed(t) && (hash(Preimage(s)) == hash(Preimage(t)) ==> Preimage(s) == Preimage(t))
    ensures hash(Preimage(s)) == hash(Preimage(t)) <==> SameIdentity(s, t)
  {
    PreimageIdentity(s, t);
  }

  /**
    The colon-free kinds matter: a kind with a colon can absorb a payload and
    make two different events share the hashed bytes.
   */
  lemma ColonInKindCollides(kind: seq<Byte>, subjectKind: seq<Byte>, id: seq<Byte>)
    ensures var empty := Obj(map[]);
            var s := Spec(subjectKind, id, kind, empty, Canonical(empty));
            var t := Spec(subjectKind, id, kind + [COLON] + Canonical(empty), empty, []);
            Preimage(s) == Preimage(t) && !SameIdentity(s, t)
  {
    var empty := Obj(map[]);
    var c := Canonical(empty);
    var s := Spec(subjectKind, id, kind, empty, c);
    var t := Spec(subjectKind, id, kind + [COLON] + c, empty, []);
    var head := subjectKind + [COLON] + id + [COLON];
    calc {
      Preimage(s);
      head + kind + [COLON] + c + ([COLON] + c);
      { Assoc(head + kind + [COLON] + c, [COLON], c); }
      head + kind + [COLON] + c + [COLON] + c;
      { Assoc(head, kind, [COLON]); Assoc(head, kind + [COLON], c); }
      head + (kind + [COLON] + c) + [COLON] + c;
      Preimage(t);
    }
    assert |s.kind| != |t.kind|;
  }

  /**
    `requestHash`: request bodies share a hash exactly when they are equal as
    JSON values; an absent body is read as the empty object.
   */
  lemma RequestHashIdentity<Hash>(sha: seq<Byte> -> Hash, v: Json, w: Json)
    requires sha(Canonical(v)) == sha(Canonical(w)) ==> Canonical(v) == Canonical(w)
    ensures sha(Canonical(v)) == sha(Canonical(w)) <==> Normalize(v) == Normalize(w)
  {
    if sha(Canonical(v)) == sha(Canonical(w)) {
      WriteInjective(Normalize(v), Normalize(w));
    }
  }
}
