/** The canonical byte encoding of a publish intent, which the fingerprint hashes. */
module Fingerprint {
  import opened Common
  import opened Ordering
  import opened Bytes
  import opened Domain

  /** A byte string behind its 64-bit length. */
  function Field(b: seq<byte>): seq<byte> {
    LittleEndian(|b|, 8) + b
  }

  /** A presence tag, then the field if there is one. */
  function OptionalField(o: Option<Text>): seq<byte> {
    match o
    case None => [0]
    case Some(t) => [1] + Field(t)
  }

  function Pairs(ps: seq<(Text, Text)>): seq<byte> {
    if ps == [] then [] else Field(ps[0].0) + (Field(ps[0].1) + Pairs(ps[1..]))
  }

  /** The headers in the order of their names. */
  ghost function HeaderNames(h: map<Text, Text>): (names: seq<Text>)
    ensures Elements(names) == h.Keys && forall n :: n in names ==> n in h
  {
    TextOrder();
    var names := InOrder(TextLeq, h.Keys);
    assert forall n :: n in names ==> n in Elements(names);
    names
  }

  ghost function HeaderPairs(h: map<Text, Text>): seq<(Text, Text)> {
    var names := HeaderNames(h);
    seq(|names|, i requires 0 <= i < |names| => (names[i], h[names[i]]))
  }

  ghost function Headers(h: map<Text, Text>): seq<byte> {
    LittleEndian(|HeaderPairs(h)|, 8) + Pairs(HeaderPairs(h))
  }

  /** Everything fed to the hasher, in order. */
  ghost function Canonical(topic: Text, e: Envelope): seq<byte> {
    Field(topic) + (OptionalField(e.partitionKey) + (Field(e.payload) + (Field(e.contentType)
    + (Field(e.eventType) + (Field(e.source) + (OptionalField(e.subject) + Headers(e.headers)))))))
  }

  /** The parts of a publish that a retry has to repeat. Message id, timestamp and key are not among them. */
  ghost predicate SameIntent(topic: Text, e: Envelope, topic': Text, e': Envelope) {
    && topic == topic' && e.partitionKey == e'.partitionKey && e.payload == e'.payload
    && e.contentType == e'.contentType && e.eventType == e'.eventType && e.source == e'.source
    && e.subject == e'.subject && e.headers == e'.headers
  }

  ghost predicate Fits(b: seq<byte>) {
    |b| <= U64_MAX
  }

  ghost predicate OptionFits(o: Option<Text>) {
    o.Some? ==> Fits(o.value)
  }

  ghost predicate PairFits(p: (Text, Text)) {
    Fits(p.0) && Fits(p.1)
  }

  /** All lengths fit into 64 bits, as they do for anything addressable. */
  ghost predicate Addressable(topic: Text, e: Envelope) {
    && Fits(topic) && OptionFits(e.partitionKey) && Fits(e.payload) && Fits(e.contentType) && Fits(e.eventType)
    && Fits(e.source) && OptionFits(e.subject) && |HeaderPairs(e.headers)| <= U64_MAX
    && (forall i :: 0 <= i < |HeaderPairs(e.headers)| ==> PairFits(HeaderPairs(e.headers)[i]))
  }

  // ---- no field boundary is ambiguous ----

  lemma LengthDetermines(n: nat, x: seq<byte>, m: nat, y: seq<byte>)
    requires n <= U64_MAX && m <= U64_MAX && LittleEndian(n, 8) + x == LittleEndian(m, 8) + y
    ensures n == m && x == y
  {
    var s, t := LittleEndian(n, 8) + x, LittleEndian(m, 8) + y;
    assert s[..8] == LittleEndian(n, 8) && t[..8] == LittleEndian(m, 8);
    assert s[8..] == x && t[8..] == y;
    Widths();
    LittleEndianRoundTrip(n, 8);
    LittleEndianRoundTrip(m, 8);
  }

  lemma FieldSplit(a: seq<byte>, x: seq<byte>, b: seq<byte>, y: seq<byte>)
    requires Fits(a) && Fits(b) && Field(a) + x == Field(b) + y
    ensures a == b && x == y
  {
    assert Field(a) + x == LittleEndian(|a|, 8) + (a + x);
    assert Field(b) + y == LittleEndian(|b|, 8) + (b + y);
    LengthDetermines(|a|, a + x, |b|, b + y);
    assert a == (a + x)[..|a|] && b == (b + y)[..|b|];
    assert x == (a + x)[|a|..] && y == (b + y)[|b|..];
  }

  lemma Assoc(a: seq<byte>, b: seq<byte>, c: seq<byte>)
    ensures (a + b) + c == a + (b + c)
  {
  }

  lemma TagSplit(t: byte, x: seq<byte>, u: byte, y: seq<byte>)
    requires [t] + x == [u] + y
    ensures t == u && x == y
  {
    assert ([t] + x)[0] == t && ([u] + y)[0] == u;
    assert ([t] + x)[1..] == x && ([u] + y)[1..] == y;
  }

  /** The tag of an optional field, and what follows it. */
  lemma OptionalSplit(a: Option<Text>, x: seq<byte>, b: Option<Text>, y: seq<byte>)
    requires OptionFits(a) && OptionFits(b) && OptionalField(a) + x == OptionalField(b) + y
    ensures a == b && x == y
  {
    var u, v := if a.None? then x else Field(a.value) + x, if b.None? then y else Field(b.value) + y;
    if a.Some? { Assoc([1], Field(a.value), x); }
    if b.Some? { Assoc([1], Field(b.value), y); }
    TagSplit(if a.None? then 0 else 1, u, if b.None? then 0 else 1, v);
    if a.Some? { FieldSplit(a.value, x, b.value, y); }
  }

  lemma {:induction false} PairsDetermine(ps: seq<(Text, Text)>, qs: seq<(Text, Text)>)
    requires |ps| == |qs| && Pairs(ps) == Pairs(qs)
    requires forall i :: 0 <= i < |ps| ==> PairFits(ps[i]) && PairFits(qs[i])
    ensures ps == qs
    decreases |ps|
  {
    if ps == [] {
    } else {
      var p, q := ps[0], qs[0];
      assert PairFits(p) && PairFits(q);
      FieldSplit(p.0, Field(p.1) + Pairs(ps[1..]), q.0, Field(q.1) + Pairs(qs[1..]));
      FieldSplit(p.1, Pairs(ps[1..]), q.1, Pairs(qs[1..]));
      PairsDetermine(ps[1..], qs[1..]);
      assert ps == [p] + ps[1..] && qs == [q] + qs[1..];
    }
  }

  lemma SamePairsSameHeaders(h: map<Text, Text>, k: map<Text, Text>)
    requires HeaderPairs(h) == HeaderPairs(k)
    ensures h == k
  {
    var ps, qs := HeaderNames(h), HeaderNames(k);
    assert |ps| == |HeaderPairs(h)| && |qs| == |HeaderPairs(k)|;
    forall i | 0 <= i < |ps| ensures ps[i] == qs[i] && h[ps[i]] == k[ps[i]] {
      assert HeaderPairs(h)[i] == (ps[i], h[ps[i]]) && HeaderPairs(k)[i] == (qs[i], k[qs[i]]);
    }
    assert ps == qs && h.Keys == Elements(ps) == k.Keys;
    forall n | n in h ensures h[n] == k[n] {
      assert n in Elements(ps);
      var i :| 0 <= i < |ps| && ps[i] == n;
    }
  }

  lemma HeadersDetermine(h: map<Text, Text>, k: map<Text, Text>)
    requires Headers(h) == Headers(k) && |HeaderPairs(h)| <= U64_MAX && |HeaderPairs(k)| <= U64_MAX
    requires forall i :: 0 <= i < |HeaderPairs(h)| ==> PairFits(HeaderPairs(h)[i])
    requires forall i :: 0 <= i < |HeaderPairs(k)| ==> PairFits(HeaderPairs(k)[i])
    ensures h == k
  {
    LengthDetermines(|HeaderPairs(h)|, Pairs(HeaderPairs(h)), |HeaderPairs(k)|, Pairs(HeaderPairs(k)));
    PairsDetermine(HeaderPairs(h), HeaderPairs(k));
    SamePairsSameHeaders(h, k);
  }

  /** The encoding is injective: two publishes feed the hasher the same bytes exactly when they carry
      the same intent. */
  lemma CanonicalIsInjective(topic: Text, e: Envelope, topic': Text, e': Envelope)
    requires Addressable(topic, e) && Addressable(topic', e')
    ensures Canonical(topic, e) == Canonical(topic', e') <==> SameIntent(topic, e, topic', e')
  {
    if Canonical(topic, e) == Canonical(topic', e') {
      var s6, t6 := OptionalField(e.subject) + Headers(e.headers), OptionalField(e'.subject) + Headers(e'.headers);
      var s5, t5 := Field(e.source) + s6, Field(e'.source) + t6;
      var s4, t4 := Field(e.eventType) + s5, Field(e'.eventType) + t5;
      var s3, t3 := Field(e.contentType) + s4, Field(e'.contentType) + t4;
      var s2, t2 := Field(e.payload) + s3, Field(e'.payload) + t3;
      var s1, t1 := OptionalField(e.partitionKey) + s2, OptionalField(e'.partitionKey) + t2;
      FieldSplit(topic, s1, topic', t1);
      OptionalSplit(e.partitionKey, s2, e'.partitionKey, t2);
      FieldSplit(e.payload, s3, e'.payload, t3);
      FieldSplit(e.contentType, s4, e'.contentType, t4);
      FieldSplit(e.eventType, s5, e'.eventType, t5);
      FieldSplit(e.source, s6, e'.source, t6);
      OptionalSplit(e.subject, Headers(e.headers), e'.subject, Headers(e'.headers));
      HeadersDetermine(e.headers, e'.headers);
    }
  }

  /** So fingerprints tell intents apart, as long as the digest does not collide on the two encodings. */
  lemma FingerprintsTellIntents(sha: seq<byte> -> Text, topic: Text, e: Envelope, topic': Text, e': Envelope)
    requires Addressable(topic, e) && Addressable(topic', e')
    requires sha(Canonical(topic, e)) == sha(Canonical(topic', e')) ==> Canonical(topic, e) == Canonical(topic', e')
    ensures sha(Canonical(topic, e)) == sha(Canonical(topic', e')) <==> SameIntent(topic, e, topic', e')
  {
    CanonicalIsInjective(topic, e, topic', e');
  }

  // ---- the hasher ----

  /** A hasher, by the bytes fed to it so far. */
  class Hasher {
    var fed: seq<byte>

    constructor ()
      ensures fed == []
    {
      fed := [];
    }

    method Update(bytes: seq<byte>)
      modifies this
      ensures fed == old(fed) + bytes
    {
      fed := fed + bytes;
    }

    method WriteU64(value: nat)
      modifies this
      ensures fed == old(fed) + LittleEndian(value, 8)
    {
      Update(LittleEndian(value, 8));
    }

    method WriteBytes(value: seq<byte>)
      modifies this
      ensures fed == old(fed) + Field(value)
    {
      WriteU64(|value|);
      Update(value);
    }

    method WriteOptional(value: Option<Text>)
      modifies this
      ensures fed == old(fed) + OptionalField(value)
    {
      match value {
        case Some(text) =>
          Update([1]);
          WriteBytes(text);
        case None =>
          Update([0]);
      }
    }

    method WritePair(pair: (Text, Text))
      modifies this
      ensures fed == old(fed) + (Field(pair.0) + Field(pair.1))
    {
      WriteBytes(pair.0);
      WriteBytes(pair.1);
      Assoc(old(fed), Field(pair.0), Field(pair.1));
    }

    method WriteHeaders(headers: map<Text, Text>)
      modifies this
      ensures fed == old(fed) + Headers(headers)
    {
      TextOrder();
      var names := Traverse(TextLeq, headers.Keys);
      ghost var pairs := HeaderPairs(headers);
      assert names == HeaderNames(headers) && |names| == |pairs|;
      WriteU64(|names|);
      ghost var count := LittleEndian(|names|, 8);
      Assoc(old(fed), count, Pairs(pairs));
      for i := 0 to |names|
        invariant fed + Pairs(pairs[i..]) == old(fed) + (count + Pairs(pairs))
      {
        ghost var before := fed;
        WritePair((names[i], headers[names[i]]));
        NextPair(before, pairs, i);
      }
      assert pairs[|names|..] == [];
    }
  }

  lemma NextPair(fed: seq<byte>, pairs: seq<(Text, Text)>, i: nat)
    requires i < |pairs|
    ensures fed + Pairs(pairs[i..]) == fed + (Field(pairs[i].0) + Field(pairs[i].1)) + Pairs(pairs[i + 1..])
  {
    var a, b, rest := Field(pairs[i].0), Field(pairs[i].1), Pairs(pairs[i + 1..]);
    assert pairs[i..][1..] == pairs[i + 1..];
    assert Pairs(pairs[i..]) == a + (b + rest);
    Assoc(a, b, rest);
    Assoc(fed, a + b, rest);
  }

  lemma Nest(a: seq<byte>, b: seq<byte>, c: seq<byte>, d: seq<byte>, e: seq<byte>, f: seq<byte>, g: seq<byte>,
             h: seq<byte>)
    ensures a + b + c + d + e + f + g + h == a + (b + (c + (d + (e + (f + (g + h))))))
  {
  }

  /** `PublishFingerprint::compute` over a digest function: it feeds exactly the canonical encoding. */
  method Compute(sha: seq<byte> -> Text, topic: Text, e: Envelope) returns (fingerprint: Text)
    ensures fingerprint == sha(Canonical(topic, e))
  {
    var hasher := new Hasher();
    hasher.WriteBytes(topic);
    assert hasher.fed == Field(topic);
    hasher.WriteOptional(e.partitionKey);
    hasher.WriteBytes(e.payload);
    hasher.WriteBytes(e.contentType);
    hasher.WriteBytes(e.eventType);
    hasher.WriteBytes(e.source);
    hasher.WriteOptional(e.subject);
    hasher.WriteHeaders(e.headers);
    Nest(Field(topic), OptionalField(e.partitionKey), Field(e.payload), Field(e.contentType), Field(e.eventType),
         Field(e.source), OptionalField(e.subject), Headers(e.headers));
    fingerprint := sha(hasher.fed);
  }
}
