/** Deterministic delivery ids and the hash behind them. */
module DeliveryId {
  import opened Common
  import opened Bytes
  import opened Domain
  import opened Commit

  const COLON: byte := 58

  /** "delivery" */
  const ID_PREFIX: Text := [100, 101, 108, 105, 118, 101, 114, 121]

  const FNV_OFFSET_BASIS: nat := 0xcbf2_9ce4_8422_2325
  const FNV_PRIME: nat := 0x0000_0100_0000_01b3

  /** `h ^ c`: a byte changes the low eight bits only. */
  function XorByte(h: nat, c: byte): nat {
    h / 256 * 256 + ((h % 256) as bv8 ^ c as bv8) as nat
  }

  /** FNV-1a on 64 bits: xor a byte in, multiply with wrap-around. */
  function Fnv1a64(bytes: Text): (h: nat)
    ensures h <= U64_MAX
  {
    if bytes == [] then FNV_OFFSET_BASIS
    else XorByte(Fnv1a64(bytes[..|bytes| - 1]), bytes[|bytes| - 1]) * FNV_PRIME % (U64_MAX + 1)
  }

  function Decimal(n: nat): Text {
    if n < 10 then [48 + n as byte] else Decimal(n / 10) + [48 + (n % 10) as byte]
  }

  function HexDigit(d: nat): byte
    requires d < 16
  {
    if d < 10 then 48 + d as byte else 87 + d as byte
  }

  /** The `width` low hexadecimal digits, zero-padded. */
  function Hex(n: nat, width: nat): Text {
    if width == 0 then [] else Hex(n / 16, width - 1) + [HexDigit(n % 16)]
  }

  /** partition:offset:attempt */
  function Coordinates(pos: Position, attempt: nat): Text {
    Decimal(pos.ref.partition) + [COLON] + Decimal(pos.ref.offset) + [COLON] + Decimal(attempt)
  }

  /** What is hashed: group:topic:partition:offset:attempt */
  function HashInput(pos: Position, attempt: nat): Text {
    pos.group + [COLON] + (pos.ref.topic + [COLON] + Coordinates(pos, attempt))
  }

  /** delivery:hash:partition:offset:attempt, the hash as 16 hexadecimal digits. */
  function IdText(hash: nat, pos: Position, attempt: nat): Text {
    ID_PREFIX + [COLON] + (Hex(hash, 16) + [COLON] + Coordinates(pos, attempt))
  }

  /** `deterministic_delivery_id`, over the hash function. */
  function DeterministicId(hash: Text -> nat, pos: Position, attempt: nat): Text {
    IdText(hash(HashInput(pos, attempt)), pos, attempt)
  }

  function KeyedPartition(hash: Text -> nat, key: Text, count: PartitionCount): (p: nat)
    ensures p < count && exists q: nat :: hash(key) == q * count + p
  {
    assert hash(key) == (hash(key) / count) * count + hash(key) % count;
    hash(key) % count
  }

  // ---- the format can be read back ----

  ghost predicate NoColon(t: Text) {
    forall i :: 0 <= i < |t| ==> t[i] != COLON
  }

  /** A text up to its first colon is unambiguous. */
  lemma SplitAtColon(a: Text, x: Text, b: Text, y: Text)
    requires NoColon(a) && NoColon(b) && a + [COLON] + x == b + [COLON] + y
    ensures a == b && x == y
  {
    var s, t := a + [COLON] + x, b + [COLON] + y;
    assert s[|a|] == COLON && t[|b|] == COLON;
    assert |a| == |b|;
    assert a == s[..|a|] && b == t[..|b|];
    assert x == s[|a| + 1..] && y == t[|b| + 1..];
  }

  lemma {:induction false} DecimalShape(n: nat)
    ensures |Decimal(n)| >= 1 && forall i :: 0 <= i < |Decimal(n)| ==> 48 <= Decimal(n)[i] <= 57
  {
    if n >= 10 { DecimalShape(n / 10); }
  }

  lemma {:induction false} DecimalInjective(n: nat, m: nat)
    requires Decimal(n) == Decimal(m)
    ensures n == m
  {
    var s, t := Decimal(n), Decimal(m);
    assert s[|s| - 1] == 48 + (n % 10) as byte && t[|t| - 1] == 48 + (m % 10) as byte;
    if n >= 10 { DecimalShape(n / 10); }
    if m >= 10 { DecimalShape(m / 10); }
    if n >= 10 && m >= 10 {
      assert s[..|s| - 1] == Decimal(n / 10) && t[..|t| - 1] == Decimal(m / 10);
      DecimalInjective(n / 10, m / 10);
    }
  }

  function Power16(w: nat): nat {
    if w == 0 then 1 else 16 * Power16(w - 1)
  }

  lemma {:induction false} HexShape(n: nat, w: nat)
    ensures |Hex(n, w)| == w && forall i :: 0 <= i < w ==> 48 <= Hex(n, w)[i] <= 57 || 97 <= Hex(n, w)[i] <= 102
  {
    if w == 0 {
    } else {
      HexShape(n / 16, w - 1);
    }
  }

  lemma {:induction false} HexInjective(n: nat, m: nat, w: nat)
    requires n < Power16(w) && m < Power16(w) && Hex(n, w) == Hex(m, w)
    ensures n == m
  {
    if w == 0 {
    } else {
      HexShape(n / 16, w - 1);
      HexShape(m / 16, w - 1);
      assert Hex(n, w)[w - 1] == HexDigit(n % 16) && Hex(m, w)[w - 1] == HexDigit(m % 16);
      assert Hex(n, w)[..w - 1] == Hex(n / 16, w - 1) && Hex(m, w)[..w - 1] == Hex(m / 16, w - 1);
      HexInjective(n / 16, m / 16, w - 1);
    }
  }

  lemma CoordinatesDetermine(p: Position, a: nat, q: Position, b: nat)
    requires Coordinates(p, a) == Coordinates(q, b)
    ensures p.ref.partition == q.ref.partition && p.ref.offset == q.ref.offset && a == b
  {
    DecimalShape(p.ref.partition);
    DecimalShape(q.ref.partition);
    DecimalShape(p.ref.offset);
    DecimalShape(q.ref.offset);
    var rest, rest' := Decimal(p.ref.offset) + [COLON] + Decimal(a), Decimal(q.ref.offset) + [COLON] + Decimal(b);
    assert Coordinates(p, a) == Decimal(p.ref.partition) + [COLON] + rest;
    assert Coordinates(q, b) == Decimal(q.ref.partition) + [COLON] + rest';
    SplitAtColon(Decimal(p.ref.partition), rest, Decimal(q.ref.partition), rest');
    SplitAtColon(Decimal(p.ref.offset), Decimal(a), Decimal(q.ref.offset), Decimal(b));
    DecimalInjective(p.ref.partition, q.ref.partition);
    DecimalInjective(p.ref.offset, q.ref.offset);
    DecimalInjective(a, b);
  }

  /** The hashed text determines the whole five-tuple, since topic and group names have no colon. */
  lemma HashInputDetermines(p: Position, a: nat, q: Position, b: nat)
    requires NoColon(p.group) && NoColon(p.ref.topic) && NoColon(q.group) && NoColon(q.ref.topic)
    ensures HashInput(p, a) == HashInput(q, b) <==> p == q && a == b
  {
    if HashInput(p, a) == HashInput(q, b) {
      var x, y := Coordinates(p, a), Coordinates(q, b);
      SplitAtColon(p.group, p.ref.topic + [COLON] + x, q.group, q.ref.topic + [COLON] + y);
      SplitAtColon(p.ref.topic, x, q.ref.topic, y);
      CoordinatesDetermine(p, a, q, b);
    }
  }

  lemma Power16Of16()
    ensures Power16(16) == U64_MAX + 1
  {
    assert Power16(4) == 0x1_0000;
    assert Power16(8) == 0x1_0000_0000;
    assert Power16(12) == 0x1_0000_0000_0000;
  }

  /** Equal ids have equal hashes, partitions, offsets and attempts, whatever the names are. */
  lemma IdTextDetermines(h: nat, p: Position, a: nat, k: nat, q: Position, b: nat)
    requires h <= U64_MAX && k <= U64_MAX && IdText(h, p, a) == IdText(k, q, b)
    ensures h == k && p.ref.partition == q.ref.partition && p.ref.offset == q.ref.offset && a == b
  {
    var x, y := Coordinates(p, a), Coordinates(q, b);
    SplitAtColon(ID_PREFIX, Hex(h, 16) + [COLON] + x, ID_PREFIX, Hex(k, 16) + [COLON] + y);
    HexShape(h, 16);
    HexShape(k, 16);
    SplitAtColon(Hex(h, 16), x, Hex(k, 16), y);
    Power16Of16();
    HexInjective(h, k, 16);
    CoordinatesDetermine(p, a, q, b);
  }

  function InputOf(x: (Position, nat)): Text {
    HashInput(x.0, x.1)
  }

  /** Among the deliveries `used`, equal hashes at equal coordinates come from equal hash inputs: the
      hash tells their (group, topic) pairs apart. */
  ghost predicate NoCollision(hash: Text -> nat, used: set<(Position, nat)>) {
    forall x, y | x in used && y in used :: Coordinates(x.0, x.1) == Coordinates(y.0, y.1)
      ==> hash(InputOf(x)) == hash(InputOf(y)) ==> InputOf(x) == InputOf(y)
  }

  /** Barring such collisions, the ids of the deliveries in use are distinct. */
  lemma IdsAreDistinct(cfg: Config, hash: Text -> nat, used: set<(Position, nat)>)
    requires forall pos, a: nat :: cfg.deliveryId(pos, a) == DeterministicId(hash, pos, a)
    requires forall t :: hash(t) <= U64_MAX
    requires forall x :: x in used ==> NoColon(x.0.group) && NoColon(x.0.ref.topic)
    requires NoCollision(hash, used)
    ensures Distinct(cfg, used)
  {
    forall x, y | x in used && y in used && cfg.deliveryId(x.0, x.1) == cfg.deliveryId(y.0, y.1) ensures x == y {
      IdTextDetermines(hash(InputOf(x)), x.0, x.1, hash(InputOf(y)), y.0, y.1);
      HashInputDetermines(x.0, x.1, y.0, y.1);
    }
  }

  // ---- the broker's own hash ----

  /** The configuration the broker runs with: ids and keyed partitions by FNV-1a. */
  function BrokerConfig(maxAttempts: nat, backoffMillis: Option<nat>, leaseMillis: nat,
                        fingerprint: (Text, Envelope) -> Text): Config {
    Config(maxAttempts, backoffMillis, leaseMillis,
           (pos: Position, attempt: nat) => DeterministicId(Fnv1a64, pos, attempt),
           (key: Text, count: PartitionCount) => KeyedPartition(Fnv1a64, key, count),
           fingerprint)
  }

  /** It meets the hypotheses of the theorems: it is valid for every policy of 1 to 2^32 - 1 attempts, and
      ids are distinct as long as FNV-1a tells apart the group and topic names in use. */
  lemma {:induction false} BrokerConfigIsGood(maxAttempts: nat, backoffMillis: Option<nat>, leaseMillis: nat,
                                              fingerprint: (Text, Envelope) -> Text, used: set<(Position, nat)>)
    ensures var cfg := BrokerConfig(maxAttempts, backoffMillis, leaseMillis, fingerprint);
      && (cfg.Valid() <==> 1 <= maxAttempts <= U32_MAX)
      && ((forall x :: x in used ==> NoColon(x.0.group) && NoColon(x.0.ref.topic)) && NoCollision(Fnv1a64, used) ==>
            Distinct(cfg, used))
  {
    var cfg := BrokerConfig(maxAttempts, backoffMillis, leaseMillis, fingerprint);
    if (forall x :: x in used ==> NoColon(x.0.group) && NoColon(x.0.ref.topic)) && NoCollision(Fnv1a64, used) {
      IdsAreDistinct(cfg, Fnv1a64, used);
    }
  }

  // ---- the id is always accepted ----

  lemma {:induction false} DecimalLength(n: nat, width: nat, limit: nat)
    requires width >= 1 && limit == Power10(width) && n < limit
    ensures |Decimal(n)| <= width
    decreases width
  {
    if n >= 10 { DecimalLength(n / 10, width - 1, Power10(width - 1)); }
  }

  /** Printable ASCII without blanks: one character per byte, and nothing for `trim` to remove. */
  ghost predicate Solid(t: Text) {
    forall i :: 0 <= i < |t| ==> 33 <= t[i] <= 126
  }

  /** For machine-size partitions, offsets and attempts the id is non-empty, has nothing to trim and stays
      far below the limit of 255 characters, so building it never fails. */
  lemma IdIsAccepted(hash: Text -> nat, pos: Position, attempt: nat)
    requires pos.ref.partition <= U32_MAX && pos.ref.offset <= U64_MAX && attempt <= U32_MAX
    ensures var id := DeterministicId(hash, pos, attempt);
      Solid(id) && 1 <= |id| <= 68
  {
    var h := hash(HashInput(pos, attempt));
    HexShape(h, 16);
    DecimalShape(pos.ref.partition);
    DecimalShape(pos.ref.offset);
    DecimalShape(attempt);
    DecimalWidths();
    DecimalLength(pos.ref.partition, 10, Power10(10));
    DecimalLength(pos.ref.offset, 20, Power10(20));
    DecimalLength(attempt, 10, Power10(10));
    SolidConcat(Decimal(pos.ref.partition), Decimal(pos.ref.offset));
    SolidConcat(Decimal(pos.ref.partition) + [COLON] + Decimal(pos.ref.offset), Decimal(attempt));
    SolidConcat(Hex(h, 16), Coordinates(pos, attempt));
    SolidConcat(ID_PREFIX, Hex(h, 16) + [COLON] + Coordinates(pos, attempt));
  }

  lemma SolidConcat(a: Text, b: Text)
    requires Solid(a) && Solid(b)
    ensures Solid(a + [COLON] + b)
  {
  }

  // ---- the numbers and the hash themselves ----

  /** The number that decimal digits stand for. */
  function FromDecimal(t: Text): nat {
    if t == [] then 0 else 10 * FromDecimal(t[..|t| - 1]) + (if t[|t| - 1] >= 48 then t[|t| - 1] as nat - 48 else 0)
  }

  lemma {:induction false} DecimalReadsBack(n: nat)
    ensures FromDecimal(Decimal(n)) == n
    ensures n > 0 ==> Decimal(n)[0] != 48
  {
    if n < 10 {
      assert Decimal(n)[..0] == [];
    } else {
      DecimalReadsBack(n / 10);
      assert Decimal(n)[..|Decimal(n)| - 1] == Decimal(n / 10);
    }
  }

  /** The number that lower-case hexadecimal digits stand for. */
  function FromHex(t: Text): nat {
    if t == [] then 0
    else
      var c := t[|t| - 1];
      16 * FromHex(t[..|t| - 1]) + (if 97 <= c then c as nat - 87 else if 48 <= c then c as nat - 48 else 0)
  }

  lemma {:induction false} HexReadsBack(n: nat, w: nat)
    requires n < Power16(w)
    ensures FromHex(Hex(n, w)) == n
  {
    if w == 0 {
    } else {
      HexReadsBack(n / 16, w - 1);
      HexShape(n / 16, w - 1);
      assert Hex(n, w)[..w - 1] == Hex(n / 16, w - 1) && Hex(n, w)[w - 1] == HexDigit(n % 16);
    }
  }

  lemma XorOf(q: nat, low: nat, c: byte, r: nat)
    requires low < 256 && (low as bv8 ^ c as bv8) as nat == r
    ensures XorByte(q * 256 + low, c) == q * 256 + r
  {
    assert (q * 256 + low) / 256 == q && (q * 256 + low) % 256 == low;
  }

  lemma FnvSnoc(t: Text, c: byte)
    ensures Fnv1a64(t + [c]) == XorByte(Fnv1a64(t), c) * 0x0000_0100_0000_01b3 % 0x1_0000_0000_0000_0000
  {
    assert (t + [c])[..|t|] == t;
  }

  /** The hash of a text with one more byte, from the hash `q`, `low` of the text: `r` is the new low byte. */
  lemma FnvNext(t: Text, q: nat, low: nat, c: byte, r: nat, u: Text, next: nat)
    requires u == t + [c] && Fnv1a64(t) == q * 256 + low && XorByte(q * 256 + low, c) == q * 256 + r
    requires next == (q * 256 + r) * 0x0000_0100_0000_01b3 % 0x1_0000_0000_0000_0000
    ensures Fnv1a64(u) == next
  {
    FnvSnoc(t, c);
  }

  /** Published values of 64-bit FNV-1a: of nothing and of "a". */
  lemma FnvKnownValues()
    ensures Fnv1a64([]) == 0xcbf2_9ce4_8422_2325 && Fnv1a64([97]) == 0xaf63_dc4c_8601_ec8c
  {
    XorOf(0xcb_f29c_e484_2223, 0x25, 97, 0x44);
    FnvNext([], 0xcb_f29c_e484_2223, 0x25, 97, 0x44, [97], 0xaf63_dc4c_8601_ec8c);
  }

  /** What is hashed is "group:topic:partition:offset:attempt", the id "delivery:hash:partition:offset:attempt". */
  lemma IdFormat(hash: nat, pos: Position, attempt: nat)
    ensures HashInput(pos, attempt) ==
            pos.group + [58] + pos.ref.topic + [58] + Decimal(pos.ref.partition) + [58] + Decimal(pos.ref.offset)
            + [58] + Decimal(attempt)
    ensures IdText(hash, pos, attempt) ==
            [100, 101, 108, 105, 118, 101, 114, 121, 58] + Hex(hash, 16) + [58] + Decimal(pos.ref.partition) + [58]
            + Decimal(pos.ref.offset) + [58] + Decimal(attempt)
  {
  }
}
