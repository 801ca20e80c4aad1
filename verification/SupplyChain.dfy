/**
 Signing and verifying manifests (src/ecosystem.py) with an ideal signature scheme.

 The bytes that are signed are the canonical text of the manifest without `governance.signature`.
 `SignThenVerify` says when a freshly signed manifest verifies; `TamperingIsDetected` says that under
 a given signature exactly the manifests that mean the same outside that one field are accepted.
 */
module SupplyChain {
  import opened Wrappers
  import opened Text
  import opened JsonText
  import opened CanonicalForm

  // ---------------------------------------------------------------- objects as dictionaries

  function Find(fields: seq<Field>, key: string): Option<Json> {
    if fields == [] then None
    else if fields[0].key == key then Some(fields[0].value)
    else Find(fields[1..], key)
  }

  function Assign(fields: seq<Field>, key: string, value: Json): (r: seq<Field>)
    ensures r != []
  {
    if fields == [] then [Field(key, value)]
    else if fields[0].key == key then [Field(key, value)] + fields[1..]
    else [fields[0]] + Assign(fields[1..], key, value)
  }

  function Pop(fields: seq<Field>, key: string): seq<Field> {
    if fields == [] then []
    else if fields[0].key == key then fields[1..]
    else [fields[0]] + Pop(fields[1..], key)
  }

  lemma {:induction false} FindIsMeaning(fields: seq<Field>, key: string)
    ensures Find(fields, key).Some? <==> key in MeaningFields(fields)
    ensures Find(fields, key).Some? ==> MeaningFields(fields)[key] == Meaning(Find(fields, key).value)
  {
    if fields != [] {
      FindIsMeaning(fields[1..], key);
    }
  }

  lemma {:induction false} AssignMeaning(fields: seq<Field>, key: string, value: Json)
    ensures MeaningFields(Assign(fields, key, value)) == MeaningFields(fields)[key := Meaning(value)]
    ensures Find(Assign(fields, key, value), key) == Some(value)
  {
    if fields != [] {
      AssignMeaning(fields[1..], key, value);
      assert Assign(fields, key, value)[1..] ==
        if fields[0].key == key then fields[1..] else Assign(fields[1..], key, value);
    }
  }

  lemma {:induction false} FindOther(fields: seq<Field>, key: string, value: Json, other: string)
    requires other != key
    ensures Find(Assign(fields, key, value), other) == Find(fields, other)
    ensures Find(Pop(fields, key), other) == Find(fields, other)
  {
    if fields != [] {
      FindOther(fields[1..], key, value, other);
    }
  }

  lemma {:induction false} PopMeaning(fields: seq<Field>, key: string)
    requires DistinctKeys(fields)
    ensures MeaningFields(Pop(fields, key)) == MeaningFields(fields) - {key}
  {
    if fields != [] {
      PopMeaning(fields[1..], key);
      if fields[0].key == key {
        MeaningKeys(fields[1..], key);
        assert forall i :: 0 <= i < |fields[1..]| ==> fields[1..][i] == fields[i + 1];
        assert key !in MeaningFields(fields[1..]);
      } else {
        assert Pop(fields, key)[1..] == Pop(fields[1..], key);
      }
    } else {
      assert MeaningFields(fields) - {key} == map[];
    }
  }

  ghost predicate GoodFields(fields: seq<Field>) {
    DistinctKeys(fields) && forall i :: 0 <= i < |fields| ==> WellFormed(fields[i].value)
  }

  lemma {:induction false} AssignGood(fields: seq<Field>, key: string, value: Json)
    requires GoodFields(fields) && WellFormed(value)
    ensures GoodFields(Assign(fields, key, value))
    ensures forall f :: f in Assign(fields, key, value) ==> f == Field(key, value) || f in fields
  {
    if fields != [] && fields[0].key != key {
      AssignGood(fields[1..], key, value);
      var r := Assign(fields[1..], key, value);
      assert Assign(fields, key, value) == [fields[0]] + r;
      forall j | 0 <= j < |r| ensures r[j].key != fields[0].key {
        assert r[j] in r;
        if r[j] in fields[1..] {
          var k :| 0 <= k < |fields[1..]| && fields[1..][k] == r[j];
          assert fields[k + 1] == r[j];
        }
      }
    }
  }

  lemma {:induction false} PopGood(fields: seq<Field>, key: string)
    requires GoodFields(fields)
    ensures GoodFields(Pop(fields, key))
    ensures forall f :: f in Pop(fields, key) ==> f in fields
  {
    if fields != [] && fields[0].key != key {
      PopGood(fields[1..], key);
      var r := Pop(fields[1..], key);
      assert Pop(fields, key) == [fields[0]] + r;
      forall j | 0 <= j < |r| ensures r[j].key != fields[0].key {
        assert r[j] in fields[1..];
        var k :| 0 <= k < |fields[1..]| && fields[1..][k] == r[j];
        assert fields[k + 1] == r[j];
      }
    }
  }

  lemma {:induction false} FindGood(fields: seq<Field>, key: string)
    requires GoodFields(fields)
    ensures Find(fields, key).Some? ==> WellFormed(Find(fields, key).value)
  {
    if fields != [] {
      FindGood(fields[1..], key);
    }
  }

  // ---------------------------------------------------------------- canonical_manifest

  /** The manifest without `governance.signature`. */
  function Unsigned(fields: seq<Field>): seq<Field> {
    match Find(fields, "governance")
    case Some(Obj(g)) => Assign(fields, "governance", Obj(Pop(g, "signature")))
    case _ => fields
  }

  function CanonicalManifest(fields: seq<Field>): string {
    Canonical(Obj(Unsigned(fields)))
  }

  /** What a manifest means apart from its signature. */
  ghost function SignedMeaning(fields: seq<Field>): Value {
    Meaning(Obj(Unsigned(fields)))
  }

  lemma UnsignedGood(fields: seq<Field>)
    requires GoodFields(fields)
    ensures GoodFields(Unsigned(fields)) && WellFormed(Obj(Unsigned(fields)))
  {
    FindGood(fields, "governance");
    match Find(fields, "governance")
    case Some(Obj(g)) =>
      PopGood(g, "signature");
      AssignGood(fields, "governance", Obj(Pop(g, "signature")));
    case _ =>
  }

  // ---------------------------------------------------------------- an ideal signature scheme

  datatype Scheme<!S> = Scheme(
    publicOf: nat -> nat,
    sign: (nat, string) -> S,
    verify: (nat, S, string) -> bool,
    encode: S -> string,
    decode: string -> Option<S>)

  /**
   What is assumed of Ed25519 (RFC 8032, section 5.1) and base64: signatures verify; whatever
   verifies was made with the private key, for that very message; a signature fixes its key and
   message; the encoding can be undone.
   */
  ghost predicate Ideal<S(!new)>(c: Scheme<S>) {
    && (forall k: nat, m :: c.verify(c.publicOf(k), c.sign(k, m), m))
    && (forall p: nat, s: S, m :: c.verify(p, s, m) ==> exists k: nat :: c.publicOf(k) == p && s == c.sign(k, m))
    && (forall k: nat, l: nat, m, n :: c.sign(k, m) == c.sign(l, n) ==> k == l && m == n)
    && (forall s: S :: c.decode(c.encode(s)) == Some(s))
  }

  /** A signature that is its key and its message, written one after the other. */
  function EncodePair(s: (nat, string)): string {
    Decimal(s.0) + ":" + s.1
  }

  function DecodePair(text: string): Option<(nat, string)> {
    var n := WordLength(text);
    if n < |text| && IsDecimal(text[..n]) && ReadDecimal(text[..n]) >= 0
    then Some((ReadDecimal(text[..n]), text[n + 1..])) else None
  }

  /** The assumption can be met. */
  lemma IdealCanBeMet()
    ensures exists c: Scheme<(nat, string)> :: Ideal(c)
  {
    var c := Scheme(
      (k: nat) => k,
      (k: nat, m: string) => (k, m),
      (p: nat, s: (nat, string), m: string) => s == (p, m),
      EncodePair, DecodePair);
    forall s: (nat, string) ensures c.decode(c.encode(s)) == Some(s) {
      DecimalSpec(s.0);
      var text := EncodePair(s);
      assert text == Decimal(s.0) + (":" + s.1);
      WordLengthSpec(Decimal(s.0), ":" + s.1);
      assert text[..|Decimal(s.0)|] == Decimal(s.0) && text[|Decimal(s.0)| + 1..] == s.1;
    }
    forall p: nat, s: (nat, string), m: string | c.verify(p, s, m)
      ensures exists k: nat :: c.publicOf(k) == p && s == c.sign(k, m)
    {
      assert c.publicOf(p) == p && s == c.sign(p, m);
    }
    assert Ideal(c);
  }

  const PREFIX := "ed25519:"

  /** `sign_manifest`; a `governance` that is there but not an object raises a TypeError. */
  function Sign<S>(c: Scheme<S>, fields: seq<Field>, key: nat, publisher: string): Result<seq<Field>> {
    match Find(fields, "governance")
    case Some(Obj(g)) => Ok(SignWith(c, fields, g, key, publisher))
    case None => Ok(SignWith(c, fields, [], key, publisher))
    case _ => Err(Uncaught)
  }

  function SignWith<S>(c: Scheme<S>, fields: seq<Field>, g: seq<Field>, key: nat, publisher: string): seq<Field> {
    var g' := Pop(Assign(g, "publisher", Str(publisher)), "signature");
    var unsigned := Assign(fields, "governance", Obj(g'));
    var signature := PREFIX + c.encode(c.sign(key, CanonicalManifest(unsigned)));
    Assign(unsigned, "governance", Obj(Assign(g', "signature", Str(signature))))
  }

  /** `verify_manifest_signature`; a publisher that cannot be looked up in a dictionary raises a TypeError. */
  function Verify<S>(c: Scheme<S>, fields: seq<Field>, trusted: map<string, nat>): Result<()> {
    match Find(fields, "governance")
    case Some(Obj(g)) =>
      (match (Find(g, "publisher"), Find(g, "signature"))
       case (Some(Arr(_)), _) => Err(Uncaught)
       case (Some(Obj(_)), _) => Err(Uncaught)
       case (Some(Str(publisher)), Some(Str(encoded))) =>
         if publisher !in trusted || !StartsWith(encoded, PREFIX) then Err(PolicyDenied)
         else (match c.decode(encoded[|PREFIX|..])
               case None => Err(PolicyDenied)
               case Some(s) =>
                 if c.verify(trusted[publisher], s, CanonicalManifest(fields)) then Ok(()) else Err(PolicyDenied))
       case _ => Err(PolicyDenied))
    case _ => Err(PolicyDenied)
  }

  /** The signature text of a manifest. */
  function SignatureText(fields: seq<Field>): Option<string> {
    match Find(fields, "governance")
    case Some(Obj(g)) => (match Find(g, "signature") case Some(Str(t)) => Some(t) case _ => None)
    case _ => None
  }

  // ---------------------------------------------------------------- signing

  lemma {:induction false} PopAssignSame(g: seq<Field>, key: string, v: Json)
    requires Find(g, key).None?
    ensures Pop(Assign(g, key, v), key) == g
  {
    if g != [] {
      PopAssignSame(g[1..], key, v);
    }
  }

  lemma {:induction false} AssignTwice(fields: seq<Field>, key: string, v: Json, w: Json)
    ensures Assign(Assign(fields, key, v), key, w) == Assign(fields, key, w)
  {
    if fields != [] && fields[0].key != key {
      AssignTwice(fields[1..], key, v, w);
    }
  }

  lemma {:induction false} PopRemoves(g: seq<Field>, key: string)
    requires DistinctKeys(g)
    ensures Find(Pop(g, key), key).None?
  {
    PopMeaning(g, key);
    FindIsMeaning(Pop(g, key), key);
  }

  lemma SignedShape<S>(c: Scheme<S>, fields: seq<Field>, g: seq<Field>, key: nat, publisher: string)
    requires GoodFields(fields) && GoodFields(g)
    ensures var g' := Pop(Assign(g, "publisher", Str(publisher)), "signature");
            var unsigned := Assign(fields, "governance", Obj(g'));
            var signed := SignWith(c, fields, g, key, publisher);
            && GoodFields(signed)
            && Unsigned(signed) == unsigned && Unsigned(unsigned) == unsigned
            && SignatureText(signed) == Some(PREFIX + c.encode(c.sign(key, CanonicalManifest(signed))))
            && (match Find(signed, "governance") case Some(Obj(h)) => Find(h, "publisher") == Some(Str(publisher)) case _ => false)
  {
    var g1 := Assign(g, "publisher", Str(publisher));
    var g' := Pop(g1, "signature");
    AssignGood(g, "publisher", Str(publisher));
    PopGood(g1, "signature");
    PopRemoves(g1, "signature");
    AssignMeaning(g, "publisher", Str(publisher));
    FindOther(g1, "signature", Null, "publisher");
    var unsigned := Assign(fields, "governance", Obj(g'));
    AssignGood(fields, "governance", Obj(g'));
    AssignMeaning(fields, "governance", Obj(g'));
    var text := Str(PREFIX + c.encode(c.sign(key, CanonicalManifest(unsigned))));
    var h := Assign(g', "signature", text);
    AssignGood(g', "signature", text);
    AssignMeaning(g', "signature", text);
    FindOther(g', "signature", text, "publisher");
    PopAssignSame(g', "signature", text);
    AssignGood(unsigned, "governance", Obj(h));
    AssignMeaning(unsigned, "governance", Obj(h));
    AssignTwice(unsigned, "governance", Obj(h), Obj(g'));
    AssignTwice(fields, "governance", Obj(g'), Obj(g'));
    PopAbsent(g', "signature");
  }

  lemma {:induction false} PopAbsent(g: seq<Field>, key: string)
    requires Find(g, key).None?
    ensures Pop(g, key) == g
  {
    if g != [] {
      PopAbsent(g[1..], key);
    }
  }

  lemma SignedIs<S>(c: Scheme<S>, fields: seq<Field>, key: nat, publisher: string) returns (g: seq<Field>)
    requires GoodFields(fields) && Sign(c, fields, key, publisher).Ok?
    ensures GoodFields(g) && Sign(c, fields, key, publisher).value == SignWith(c, fields, g, key, publisher)
  {
    FindGood(fields, "governance");
    g := if Find(fields, "governance").None? then [] else Find(fields, "governance").value.fields;
  }

  /** What was signed verifies exactly when the publisher is trusted with the right key. */
  lemma SignThenVerify<S(!new)>(c: Scheme<S>, fields: seq<Field>, key: nat, publisher: string, trusted: map<string, nat>)
    requires Ideal(c) && GoodFields(fields)
    requires Sign(c, fields, key, publisher).Ok?
    ensures Verify(c, Sign(c, fields, key, publisher).value, trusted).Ok?
            <==> publisher in trusted && trusted[publisher] == c.publicOf(key)
  {
    var g := SignedIs(c, fields, key, publisher);
    SignedShape(c, fields, g, key, publisher);
    var signed := SignWith(c, fields, g, key, publisher);
    var m := CanonicalManifest(signed);
    var encoded := PREFIX + c.encode(c.sign(key, m));
    assert encoded[|PREFIX|..] == c.encode(c.sign(key, m));
    if Verify(c, signed, trusted).Ok? {
      assert c.verify(trusted[publisher], c.sign(key, m), m);
      var k: nat :| c.publicOf(k) == trusted[publisher] && c.sign(key, m) == c.sign(k, m);
    }
  }

  /** A value without the one field a signature does not cover. */
  ghost function WithoutSignature(v: map<string, Value>): map<string, Value> {
    if "governance" in v && v["governance"].VObj? then v["governance" := VObj(v["governance"].fields - {"signature"})] else v
  }

  lemma UnsignedMeaning(fields: seq<Field>)
    requires GoodFields(fields)
    ensures MeaningFields(Unsigned(fields)) == WithoutSignature(MeaningFields(fields))
  {
    FindGood(fields, "governance");
    FindIsMeaning(fields, "governance");
    match Find(fields, "governance")
    case Some(Obj(g)) =>
      PopMeaning(g, "signature");
      AssignMeaning(fields, "governance", Obj(Pop(g, "signature")));
    case _ =>
  }

  /** The text that is signed is the canonical one of whatever tree has that value. */
  lemma SignedText(fields: seq<Field>, j: Json)
    requires GoodFields(fields) && WellFormed(j)
    requires Meaning(j) == VObj(WithoutSignature(MeaningFields(fields)))
    ensures CanonicalManifest(fields) == Canonical(j)
  {
    UnsignedGood(fields);
    UnsignedMeaning(fields);
    CanonicalIsInjective(Obj(Unsigned(fields)), j);
  }

  /**
   Signing names the publisher and adds the signature of what it leaves, and changes nothing else; it
   fails exactly when `governance` is there and not an object.
   */
  lemma SignOnlySigns<S>(c: Scheme<S>, fields: seq<Field>, key: nat, publisher: string)
    requires GoodFields(fields)
    ensures var v, r := MeaningFields(fields), Sign(c, fields, key, publisher);
            && (r.Err? <==> "governance" in v && !v["governance"].VObj?)
            && (r.Err? ==> r.error == Uncaught)
            && (r.Ok? ==>
                  var g := if "governance" in v then v["governance"].fields else map[];
                  var signature := "ed25519:" + c.encode(c.sign(key, CanonicalManifest(r.value)));
                  MeaningFields(r.value) == v["governance" := VObj(g["publisher" := VStr(publisher)]["signature" := VStr(signature)])])
  {
    FindIsMeaning(fields, "governance");
    FindGood(fields, "governance");
    if Sign(c, fields, key, publisher).Ok? {
      var g := if Find(fields, "governance").None? then [] else Find(fields, "governance").value.fields;
      SignWithMeaning(c, fields, g, key, publisher);
    }
  }

  lemma SignWithMeaning<S>(c: Scheme<S>, fields: seq<Field>, g: seq<Field>, key: nat, publisher: string)
    requires GoodFields(fields) && GoodFields(g)
    ensures var signed := SignWith(c, fields, g, key, publisher);
            var signature := "ed25519:" + c.encode(c.sign(key, CanonicalManifest(signed)));
            MeaningFields(signed)
            == MeaningFields(fields)["governance" := VObj(MeaningFields(g)["publisher" := VStr(publisher)]["signature" := VStr(signature)])]
  {
    var g1 := Assign(g, "publisher", Str(publisher));
    var g' := Pop(g1, "signature");
    var unsigned := Assign(fields, "governance", Obj(g'));
    SignedShape(c, fields, g, key, publisher);
    var signature := Str(PREFIX + c.encode(c.sign(key, CanonicalManifest(unsigned))));
    AssignMeaning(g, "publisher", Str(publisher));
    AssignGood(g, "publisher", Str(publisher));
    PopMeaning(g1, "signature");
    AssignMeaning(g', "signature", signature);
    AssignMeaning(fields, "governance", Obj(g'));
    AssignMeaning(unsigned, "governance", Obj(Assign(g', "signature", signature)));
    SamePlace(MeaningFields(g1), "signature", Meaning(signature));
    assert CanonicalManifest(SignWith(c, fields, g, key, publisher)) == CanonicalManifest(unsigned);
  }

  lemma SamePlace(v: map<string, Value>, key: string, value: Value)
    ensures (v - {key})[key := value] == v[key := value]
  {
  }

  // ---------------------------------------------------------------- verifying

  /** The signature text decodes and verifies under the publisher's key. */
  ghost predicate Attests<S(!new)>(c: Scheme<S>, signature: string, publicKey: nat, message: string) {
    exists rest, s :: signature == "ed25519:" + rest && c.decode(rest) == Some(s) && c.verify(publicKey, s, message)
  }

  /** Verifying looks at the value alone: a trusted publisher, and a signature by its key on the rest. */
  lemma VerifyDecides<S(!new)>(c: Scheme<S>, fields: seq<Field>, trusted: map<string, nat>)
    requires GoodFields(fields)
    ensures var v, r := MeaningFields(fields), Verify(c, fields, trusted);
            && (r.Ok? <==>
                  && "governance" in v && v["governance"].VObj?
                  && var g := v["governance"].fields;
                     && "publisher" in g && g["publisher"].VStr? && g["publisher"].s in trusted
                     && "signature" in g && g["signature"].VStr?
                     && Attests(c, g["signature"].s, trusted[g["publisher"].s], CanonicalManifest(fields)))
            && (r.Err? ==> r.error in {PolicyDenied, Uncaught})
            && (r == Err(Uncaught) <==>
                  && "governance" in v && v["governance"].VObj?
                  && var g := v["governance"].fields;
                     "publisher" in g && (g["publisher"].VArr? || g["publisher"].VObj?))
  {
    FindIsMeaning(fields, "governance");
    match Find(fields, "governance")
    case Some(Obj(g)) =>
      FindIsMeaning(g, "publisher");
      FindIsMeaning(g, "signature");
      if Find(g, "signature").Some? && Find(g, "signature").value.Str? {
        PrefixCut(c, Find(g, "signature").value.s);
      }
    case _ =>
  }

  lemma PrefixCut<S(!new)>(c: Scheme<S>, encoded: string)
    ensures forall k, message :: Attests(c, encoded, k, message) <==>
              && StartsWith(encoded, PREFIX) && c.decode(encoded[|PREFIX|..]).Some?
              && c.verify(k, c.decode(encoded[|PREFIX|..]).value, message)
  {
    if StartsWith(encoded, PREFIX) {
      assert encoded == "ed25519:" + encoded[|PREFIX|..];
    }
    forall rest | encoded == "ed25519:" + rest ensures StartsWith(encoded, PREFIX) && encoded[|PREFIX|..] == rest {
    }
  }

  /** Whatever verifies carries a signature made by its publisher's key on its canonical text. */
  lemma VerifiedWasSigned<S(!new)>(c: Scheme<S>, fields: seq<Field>, trusted: map<string, nat>) returns (publisher: string, key: nat)
    requires Ideal(c) && Verify(c, fields, trusted).Ok?
    ensures publisher in trusted && c.publicOf(key) == trusted[publisher]
    ensures SignatureText(fields).Some? && StartsWith(SignatureText(fields).value, PREFIX)
    ensures c.decode(SignatureText(fields).value[|PREFIX|..]) == Some(c.sign(key, CanonicalManifest(fields)))
  {
    var g := Find(fields, "governance").value.fields;
    publisher := Find(g, "publisher").value.s;
    var s := c.decode(SignatureText(fields).value[|PREFIX|..]).value;
    assert c.verify(trusted[publisher], s, CanonicalManifest(fields));
    var k: nat :| c.publicOf(k) == trusted[publisher] && s == c.sign(k, CanonicalManifest(fields));
    key := k;
  }

  /**
   Two verified manifests with the same signature text mean the same apart from that signature: any
   other change is rejected.
   */
  lemma TamperingIsDetected<S(!new)>(c: Scheme<S>, fields: seq<Field>, changed: seq<Field>, trusted: map<string, nat>)
    requires Ideal(c) && GoodFields(fields) && GoodFields(changed)
    requires Verify(c, fields, trusted).Ok?
    requires SignatureText(changed) == SignatureText(fields)
    ensures Verify(c, changed, trusted).Ok? <==> SignedMeaning(changed) == SignedMeaning(fields)
  {
    var _, k := VerifiedWasSigned(c, fields, trusted);
    UnsignedGood(fields);
    UnsignedGood(changed);
    CanonicalIsInjective(Obj(Unsigned(fields)), Obj(Unsigned(changed)));
    if Verify(c, changed, trusted).Ok? {
      var _, l := VerifiedWasSigned(c, changed, trusted);
      assert c.sign(k, CanonicalManifest(fields)) == c.sign(l, CanonicalManifest(changed));
    }
    if SignedMeaning(changed) == SignedMeaning(fields) {
      SamePublisher(fields, changed);
    }
  }

  lemma UnsignedGovernance(fields: seq<Field>)
    requires GoodFields(fields)
    ensures var u := MeaningFields(Unsigned(fields));
            match Find(fields, "governance")
            case Some(Obj(g)) =>
              "governance" in u && u["governance"] == VObj(MeaningFields(g) - {"signature"})
            case Some(v) => "governance" in u && u["governance"] == Meaning(v)
            case None => "governance" !in u
  {
    UnsignedMeaning(fields);
    FindIsMeaning(fields, "governance");
  }

  lemma SamePublisher(a: seq<Field>, b: seq<Field>)
    requires GoodFields(a) && GoodFields(b)
    requires SignedMeaning(a) == SignedMeaning(b)
    requires Find(a, "governance").Some? && Find(a, "governance").value.Obj?
    requires Find(Find(a, "governance").value.fields, "publisher").Some?
    requires Find(Find(a, "governance").value.fields, "publisher").value.Str?
    ensures Find(b, "governance").Some? && Find(b, "governance").value.Obj?
    ensures Find(Find(b, "governance").value.fields, "publisher") == Find(Find(a, "governance").value.fields, "publisher")
  {
    UnsignedGovernance(a);
    UnsignedGovernance(b);
    assert MeaningFields(Unsigned(a)) == MeaningFields(Unsigned(b));
    assert Find(b, "governance").Some? && Find(b, "governance").value.Obj?;
    SamePublisherField(Find(a, "governance").value.fields, Find(b, "governance").value.fields);
  }

  lemma SamePublisherField(ga: seq<Field>, gb: seq<Field>)
    requires MeaningFields(ga) - {"signature"} == MeaningFields(gb) - {"signature"}
    requires Find(ga, "publisher").Some? && Find(ga, "publisher").value.Str?
    ensures Find(gb, "publisher") == Find(ga, "publisher")
  {
    FindIsMeaning(ga, "publisher");
    FindIsMeaning(gb, "publisher");
    var ma, mb := MeaningFields(ga) - {"signature"}, MeaningFields(gb) - {"signature"};
    assert "publisher" in ma && ma["publisher"] == Meaning(Find(ga, "publisher").value);
    assert "publisher" in mb && mb["publisher"] == Meaning(Find(gb, "publisher").value);
  }
}
