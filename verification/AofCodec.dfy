/** The binary log format: `Command::to_aof_entry` and the record reader inside
    `replay_aof`, byte for byte, including what the reader makes of torn records. */
module AofCodec {
  import opened Bytes
  import opened Domain

  const CMD_SET: byte := 1
  const CMD_DEL: byte := 2
  const CMD_INCR: byte := 3
  const CMD_EXPIRE: byte := 4
  const CMD_FLUSHDB: byte := 5
  const CMD_MSET: byte := 6

  // ---- encoding -------------------------------------------------------------

  /** A length field that keeps only the low 16 bits, then the key. */
  function KeyField(k: Key): Bytes {
    Le(|k|, 2) + k
  }

  /** A length field that keeps only the low 32 bits, then the value. */
  function ValueField(v: Bytes): Bytes {
    Le(|v|, 4) + v
  }

  function TtlField(ttl: Option<Duration>): (r: Bytes)
    ensures |r| == 8
  {
    LeI64(match ttl { case Some(d) => d / MILLI case None => -1 })
  }

  function PairFields(pairs: seq<(Key, Bytes)>): Bytes {
    if pairs == [] then [] else KeyField(pairs[0].0) + ValueField(pairs[0].1) + PairFields(pairs[1..])
  }

  predicate IsWrite(c: Command) {
    c.Set? || c.Del? || c.Incr? || c.Expire? || c.FlushDb? || c.Mset?
  }

  function Entry(c: Command): (r: Bytes)
    requires IsWrite(c)
    ensures |r| > 0
  {
    match c
    case Set(k, v, ttl) => [CMD_SET] + KeyField(k) + ValueField(v) + TtlField(ttl)
    case Del(k) => [CMD_DEL] + KeyField(k)
    case Incr(k) => [CMD_INCR] + KeyField(k)
    case Expire(k, s) => [CMD_EXPIRE] + KeyField(k) + Le(s, 8)
    case FlushDb => [CMD_FLUSHDB]
    case Mset(ps) => [CMD_MSET] + Le(|ps|, 2) + PairFields(ps)
  }

  lemma {:induction false} PairFieldsSnoc(ps: seq<(Key, Bytes)>, p: (Key, Bytes))
    ensures PairFields(ps + [p]) == PairFields(ps) + (KeyField(p.0) + ValueField(p.1))
  {
    hide KeyField, ValueField;
    if ps == [] {
      assert ps + [p] == [p] && [p][1..] == [];
    } else {
      assert (ps + [p])[1..] == ps[1..] + [p];
      PairFieldsSnoc(ps[1..], p);
    }
  }

  /** `to_aof_entry`; None for the commands that only read. */
  method ToAofEntry(c: Command) returns (r: Option<Bytes>)
    ensures r == if IsWrite(c) then Some(Entry(c)) else None
  {
    hide Le, LeI64, PairFields;
    var buf: Bytes := [];
    match c {
      case Set(k, v, ttl) =>
        buf := buf + [CMD_SET];
        buf := PushKey(buf, k);
        buf := PushValue(buf, v);
        var ms := match ttl { case Some(d) => d / MILLI case None => -1 };
        buf := buf + LeI64(ms);
        assert buf == [CMD_SET] + KeyField(k) + ValueField(v) + LeI64(ms);
      case Del(k) =>
        buf := buf + [CMD_DEL];
        buf := PushKey(buf, k);
        assert buf == [CMD_DEL] + KeyField(k);
      case Incr(k) =>
        buf := buf + [CMD_INCR];
        buf := PushKey(buf, k);
        assert buf == [CMD_INCR] + KeyField(k);
      case Expire(k, secs) =>
        buf := buf + [CMD_EXPIRE];
        buf := PushKey(buf, k);
        buf := buf + Le(secs, 8);
        assert buf == [CMD_EXPIRE] + KeyField(k) + Le(secs, 8);
      case FlushDb =>
        buf := [CMD_FLUSHDB];
      case Mset(ps) =>
        buf := buf + [CMD_MSET];
        buf := buf + Le(|ps|, 2);
        buf := PushPairs(buf, ps);
        assert buf == [CMD_MSET] + Le(|ps|, 2) + PairFields(ps);
      case _ => return None;
    }
    return Some(buf);
  }

  method PushKey(buf: Bytes, k: Key) returns (out: Bytes)
    ensures out == buf + KeyField(k)
  {
    out := buf + Le(|k|, 2);
    out := out + k;
    assert out == buf + (Le(|k|, 2) + k);
  }

  method PushValue(buf: Bytes, v: Bytes) returns (out: Bytes)
    ensures out == buf + ValueField(v)
  {
    out := buf + Le(|v|, 4);
    out := out + v;
    assert out == buf + (Le(|v|, 4) + v);
  }

  /** The pair loop of MSET. */
  method PushPairs(buf: Bytes, ps: seq<(Key, Bytes)>) returns (out: Bytes)
    ensures out == buf + PairFields(ps)
  {
    hide KeyField, ValueField;
    out := buf;
    assert ps[..0] == [] && buf + [] == buf;
    for i := 0 to |ps|
      invariant out == buf + PairFields(ps[..i])
    {
      assert ps[..i + 1] == ps[..i] + [ps[i]];
      PairFieldsSnoc(ps[..i], ps[i]);
      ghost var before := out;
      out := PushKey(out, ps[i].0);
      out := PushValue(out, ps[i].1);
      assert out == before + (KeyField(ps[i].0) + ValueField(ps[i].1));
      assert out == buf + (PairFields(ps[..i]) + (KeyField(ps[i].0) + ValueField(ps[i].1)));
    }
    assert ps[..|ps|] == ps;
  }

  // ---- decoding -------------------------------------------------------------

  /** A field that was read, or the position where the reader gave up. */
  datatype Field = Field(value: Bytes, next: nat) | Torn(at: nat)

  /** A length of `width` bytes and then that many bytes. */
  function ReadField(data: Bytes, pos: nat, width: nat): (f: Field)
    requires pos <= |data|
    ensures f.Field? ==> pos + width <= f.next <= |data|
    ensures f.Torn? ==> pos <= f.at <= |data|
  {
    if pos + width > |data| then Torn(pos)
    else
      var len := FromLe(data[pos..pos + width]);
      if pos + width + len > |data| then Torn(pos + width)
      else Field(data[pos + width..pos + width + len], pos + width + len)
  }

  /** The pair loop of MSET: on a torn pair it leaves the loop, not the replay. */
  function ReadPairs(data: Bytes, pos: nat, count: nat): (r: (seq<(Key, Bytes)>, nat))
    requires pos <= |data|
    ensures pos <= r.1 <= |data|
    ensures |r.0| <= count
    decreases count
  {
    if count == 0 then ([], pos) else
    match ReadField(data, pos, 2)
    case Torn(at) => ([], at)
    case Field(k, p) =>
      match ReadField(data, p, 4)
      case Torn(at) => ([], at)
      case Field(v, q) =>
        var (ps, end) := ReadPairs(data, q, count - 1);
        ([(k, v)] + ps, end)
  }

  /** One round of the replay loop: a command to apply, or the end of the replay. */
  datatype Step = Stop | Apply(command: Command, next: nat)

  function ReadSet(data: Bytes, pos: nat): (s: Step)
    requires pos <= |data|
    ensures s.Apply? ==> pos < s.next <= |data|
  {
    match ReadField(data, pos, 2)
    case Torn(_) => Stop
    case Field(k, p) =>
      match ReadField(data, p, 4)
      case Torn(_) => Stop
      case Field(v, q) =>
        if q + 8 > |data| then Stop
        else
          var ms := FromLeI64(data[q..q + 8]);
          Apply(Set(k, v, if ms > 0 then Some(ms * MILLI) else None), q + 8)
  }

  function ReadKeyed(data: Bytes, pos: nat, mk: Key -> Command): (s: Step)
    requires pos <= |data|
    ensures s.Apply? ==> pos < s.next <= |data|
  {
    match ReadField(data, pos, 2)
    case Torn(_) => Stop
    case Field(k, p) => Apply(mk(k), p)
  }

  function ReadExpire(data: Bytes, pos: nat): (s: Step)
    requires pos <= |data|
    ensures s.Apply? ==> pos < s.next <= |data|
  {
    match ReadField(data, pos, 2)
    case Torn(_) => Stop
    case Field(k, p) =>
      if p + 8 > |data| then Stop else Apply(Expire(k, FromLe(data[p..p + 8])), p + 8)
  }

  function ReadMset(data: Bytes, pos: nat): (s: Step)
    requires pos <= |data|
    ensures s.Apply? ==> pos < s.next <= |data|
  {
    if pos + 2 > |data| then Stop
    else
      var (ps, end) := ReadPairs(data, pos + 2, FromLe(data[pos..pos + 2]));
      Apply(Mset(ps), end)
  }

  function ReadRecord(data: Bytes, pos: nat): (s: Step)
    requires pos < |data|
    ensures s.Apply? ==> pos < s.next <= |data|
  {
    var op := data[pos];
    if op == CMD_SET then ReadSet(data, pos + 1)
    else if op == CMD_DEL then ReadKeyed(data, pos + 1, k => Del(k))
    else if op == CMD_INCR then ReadKeyed(data, pos + 1, k => Incr(k))
    else if op == CMD_EXPIRE then ReadExpire(data, pos + 1)
    else if op == CMD_FLUSHDB then Apply(FlushDb, pos + 1)
    else if op == CMD_MSET then ReadMset(data, pos + 1)
    else Stop
  }

  /** A length and the bytes it announces, as `replay_aof` and `load_snapshot` take them. */
  method TakeField(data: Bytes, start: nat, width: nat) returns (f: Field)
    requires start <= |data|
    ensures f == ReadField(data, start, width)
  {
    var pos := start;
    if pos + width > |data| {
      return Torn(pos);
    }
    var len := FromLe(data[pos..pos + width]);
    pos := pos + width;
    if pos + len > |data| {
      return Torn(pos);
    }
    return Field(data[pos..pos + len], pos + len);
  }

  /** The body of a SET record or of a snapshot entry. */
  method TakeSet(data: Bytes, start: nat) returns (s: Step)
    requires start <= |data|
    ensures s == ReadSet(data, start)
  {
    hide ReadField;
    var key := TakeField(data, start, 2);
    if key.Torn? {
      return Stop;
    }
    var value := TakeField(data, key.next, 4);
    if value.Torn? {
      return Stop;
    }
    var pos := value.next;
    if pos + 8 > |data| {
      return Stop;
    }
    var ms := FromLeI64(data[pos..pos + 8]);
    pos := pos + 8;
    var ttl: Option<Duration> := None;
    if ms > 0 {
      ttl := Some(ms * MILLI);
    }
    return Apply(Set(key.value, value.value, ttl), pos);
  }

  /** The body of an EXPIRE record. */
  method TakeExpire(data: Bytes, start: nat) returns (s: Step)
    requires start <= |data|
    ensures s == ReadExpire(data, start)
  {
    hide ReadField;
    var key := TakeField(data, start, 2);
    if key.Torn? {
      return Stop;
    }
    var pos := key.next;
    if pos + 8 > |data| {
      return Stop;
    }
    var seconds := FromLe(data[pos..pos + 8]);
    return Apply(Expire(key.value, seconds), pos + 8);
  }

  /** The commands that a replay of `data` from `pos` applies, in order. */
  function ReadLog(data: Bytes, pos: nat): (r: seq<Command>)
    requires pos <= |data|
    decreases |data| - pos
  {
    if pos == |data| then [] else
    match ReadRecord(data, pos)
    case Stop => []
    case Apply(c, next) => [c] + ReadLog(data, next)
  }

  // ---- round trip -----------------------------------------------------------

  predicate KeyFits(k: Key) {
    |k| < TWO16
  }

  predicate ValueFits(v: Bytes) {
    |v| < TWO32
  }

  predicate PairsFit(ps: seq<(Key, Bytes)>) {
    forall i :: 0 <= i < |ps| ==> KeyFits(ps[i].0) && ValueFits(ps[i].1)
  }

  /** A TTL that survives the millisecond field. */
  predicate TtlFits(ttl: Option<Duration>) {
    ttl.Some? ==> ttl.value % MILLI == 0 && 1 <= ttl.value / MILLI < TWO63
  }

  /** The commands whose record says exactly what they say. */
  predicate Encodable(c: Command) {
    match c
    case Set(k, v, ttl) => KeyFits(k) && ValueFits(v) && TtlFits(ttl)
    case Del(k) => KeyFits(k)
    case Incr(k) => KeyFits(k)
    case Expire(k, s) => KeyFits(k) && s < TWO64
    case FlushDb => true
    case Mset(ps) => |ps| < TWO16 && PairsFit(ps)
    case _ => false
  }

  /** Reading a length-prefixed field back: exact when the length fits its width. */
  lemma FieldRead(a: Bytes, d: Bytes, width: nat, z: Bytes)
    requires FromLe(Le(|d|, width)) == |d|
    ensures ReadField(a + (Le(|d|, width) + d) + z, |a|, width) == Field(d, |a| + width + |d|)
  {
    hide Le, FromLe;
    var data := a + (Le(|d|, width) + d) + z;
    assert data[|a|..|a| + width] == Le(|d|, width);
    assert data[|a| + width..|a| + width + |d|] == d;
  }

  lemma KeyRead(a: Bytes, k: Key, z: Bytes)
    requires KeyFits(k)
    ensures ReadField(a + KeyField(k) + z, |a|, 2) == Field(k, |a| + |KeyField(k)|)
  {
    hide ReadField, Le, FromLe;
    LeExact248(|k|);
    FieldRead(a, k, 2, z);
  }

  lemma ValueRead(a: Bytes, v: Bytes, z: Bytes)
    requires ValueFits(v)
    ensures ReadField(a + ValueField(v) + z, |a|, 4) == Field(v, |a| + |ValueField(v)|)
  {
    hide ReadField, Le, FromLe;
    LeExact248(|v|);
    FieldRead(a, v, 4, z);
  }

  /** A key field and a value field that follow each other. */
  lemma PairRead(a: Bytes, k: Key, v: Bytes, z: Bytes)
    requires KeyFits(k) && ValueFits(v)
    ensures
      var data := a + (KeyField(k) + ValueField(v)) + z;
      var p := |a| + |KeyField(k)|;
      && p <= |data|
      && ReadField(data, |a|, 2) == Field(k, p)
      && ReadField(data, p, 4) == Field(v, p + |ValueField(v)|)
  {
    hide KeyField, ValueField, ReadField;
    var data := a + (KeyField(k) + ValueField(v)) + z;
    KeyRead(a, k, ValueField(v) + z);
    assert data == a + KeyField(k) + (ValueField(v) + z);
    ValueRead(a + KeyField(k), v, z);
    assert data == (a + KeyField(k)) + ValueField(v) + z;
  }

  lemma {:induction false} PairsRead(a: Bytes, ps: seq<(Key, Bytes)>, z: Bytes)
    requires PairsFit(ps)
    ensures ReadPairs(a + PairFields(ps) + z, |a|, |ps|) == (ps, |a| + |PairFields(ps)|)
    decreases |ps|
  {
    hide KeyField, ValueField, ReadField;
    var data := a + PairFields(ps) + z;
    if ps != [] {
      var (k, v) := ps[0];
      var f := KeyField(k) + ValueField(v);
      var rest := PairFields(ps[1..]);
      assert PairFields(ps) == f + rest;
      PairRead(a, k, v, rest + z);
      assert data == a + f + (rest + z);
      PairsRead(a + f, ps[1..], z);
      assert data == (a + f) + rest + z;
      assert ps == [(k, v)] + ps[1..];
    }
  }

  lemma Lookahead(a: Bytes, b: Bytes, z: Bytes)
    ensures (a + b + z)[|a|..|a| + |b|] == b
  {
  }

  lemma TtlRead(ttl: Option<Duration>)
    ensures
      var ms := FromLeI64(TtlField(ttl));
      (if ms > 0 then Some(ms * MILLI) else None) == ttl <==> TtlFits(ttl)
  {
    match ttl
    case None => LeI64RoundTrip(-1);
    case Some(d) =>
      LeI64RoundTrip(d / MILLI);
      var ms := WrapI64(d / MILLI);
      if TtlFits(ttl) {
        assert d == d / MILLI * MILLI;
      } else {
        assert ms > 0 ==> (ms * MILLI) % MILLI == 0 && (ms * MILLI) / MILLI == ms;
      }
  }

  lemma SetRead(a: Bytes, k: Key, v: Bytes, ttl: Option<Duration>, z: Bytes)
    requires KeyFits(k) && ValueFits(v)
    ensures
      var body := KeyField(k) + ValueField(v) + TtlField(ttl);
      var ms := FromLeI64(TtlField(ttl));
      ReadSet(a + body + z, |a|) == Apply(Set(k, v, if ms > 0 then Some(ms * MILLI) else None), |a| + |body|)
  {
    hide KeyField, ValueField, TtlField, ReadField, FromLeI64;
    var f, t := KeyField(k) + ValueField(v), TtlField(ttl);
    var data := a + (f + t) + z;
    PairRead(a, k, v, t + z);
    assert data == a + f + (t + z);
    Lookahead(a + f, t, z);
    assert data == (a + f) + t + z;
  }

  lemma ExpireRead(a: Bytes, k: Key, s: nat, z: Bytes)
    requires KeyFits(k) && s < TWO64
    ensures
      var body := KeyField(k) + Le(s, 8);
      ReadExpire(a + body + z, |a|) == Apply(Expire(k, s), |a| + |body|)
  {
    hide KeyField, ReadField, FromLe, Le;
    LeExact248(s);
    var data := a + (KeyField(k) + Le(s, 8)) + z;
    KeyRead(a, k, Le(s, 8) + z);
    assert data == a + KeyField(k) + (Le(s, 8) + z);
    Lookahead(a + KeyField(k), Le(s, 8), z);
    assert data == (a + KeyField(k)) + Le(s, 8) + z;
  }

  lemma MsetRead(a: Bytes, ps: seq<(Key, Bytes)>, z: Bytes)
    requires |ps| < TWO16 && PairsFit(ps)
    ensures
      var body := Le(|ps|, 2) + PairFields(ps);
      ReadMset(a + body + z, |a|) == Apply(Mset(ps), |a| + |body|)
  {
    hide ReadPairs, PairFields, FromLe, Le, PairsFit;
    LeExact248(|ps|);
    var c := Le(|ps|, 2);
    var data := a + (c + PairFields(ps)) + z;
    assert data[|a|..|a| + 2] == c;
    PairsRead(a + c, ps, z);
    assert data == (a + c) + PairFields(ps) + z;
  }

  /** The opcode leads the reader to the body. */
  lemma OpSplit(a: Bytes, op: byte, body: Bytes, z: Bytes)
    ensures
      var data := a + ([op] + body) + z;
      data == (a + [op]) + body + z && |data| > |a| && data[|a|] == op
  {
  }

  /** The TTL that a record gives back. */
  function TtlBack(ttl: Option<Duration>): Option<Duration> {
    var ms := FromLeI64(TtlField(ttl));
    if ms > 0 then Some(ms * MILLI) else None
  }

  lemma SetRecordAny(a: Bytes, k: Key, v: Bytes, ttl: Option<Duration>, z: Bytes)
    requires KeyFits(k) && ValueFits(v)
    ensures ReadRecord(a + Entry(Set(k, v, ttl)) + z, |a|) == Apply(Set(k, v, TtlBack(ttl)), |a| + |Entry(Set(k, v, ttl))|)
  {
    hide KeyField, ValueField, TtlField, ReadSet, FromLeI64;
    var body := KeyField(k) + ValueField(v) + TtlField(ttl);
    assert Entry(Set(k, v, ttl)) == [CMD_SET] + body;
    OpSplit(a, CMD_SET, body, z);
    SetRead(a + [CMD_SET], k, v, ttl, z);
  }

  lemma SetRecord(a: Bytes, k: Key, v: Bytes, ttl: Option<Duration>, z: Bytes)
    requires KeyFits(k) && ValueFits(v) && TtlFits(ttl)
    ensures ReadRecord(a + Entry(Set(k, v, ttl)) + z, |a|) == Apply(Set(k, v, ttl), |a| + |Entry(Set(k, v, ttl))|)
  {
    hide Entry, ReadRecord, TtlField, FromLeI64;
    SetRecordAny(a, k, v, ttl, z);
    TtlRead(ttl);
  }

  lemma KeyRecord(a: Bytes, c: Command, z: Bytes)
    requires (c.Del? || c.Incr?) && KeyFits(c.key)
    ensures ReadRecord(a + Entry(c) + z, |a|) == Apply(c, |a| + |Entry(c)|)
  {
    hide KeyField, ReadField;
    var op := if c.Del? then CMD_DEL else CMD_INCR;
    OpSplit(a, op, KeyField(c.key), z);
    KeyRead(a + [op], c.key, z);
  }

  lemma ExpireRecord(a: Bytes, k: Key, s: nat, z: Bytes)
    requires KeyFits(k) && s < TWO64
    ensures ReadRecord(a + Entry(Expire(k, s)) + z, |a|) == Apply(Expire(k, s), |a| + |Entry(Expire(k, s))|)
  {
    hide KeyField, ReadExpire, Le;
    var body := KeyField(k) + Le(s, 8);
    assert Entry(Expire(k, s)) == [CMD_EXPIRE] + body;
    OpSplit(a, CMD_EXPIRE, body, z);
    ExpireRead(a + [CMD_EXPIRE], k, s, z);
  }

  lemma MsetRecord(a: Bytes, ps: seq<(Key, Bytes)>, z: Bytes)
    requires |ps| < TWO16 && PairsFit(ps)
    ensures ReadRecord(a + Entry(Mset(ps)) + z, |a|) == Apply(Mset(ps), |a| + |Entry(Mset(ps))|)
  {
    hide PairFields, ReadMset, Le, PairsFit;
    var body := Le(|ps|, 2) + PairFields(ps);
    assert Entry(Mset(ps)) == [CMD_MSET] + body;
    OpSplit(a, CMD_MSET, body, z);
    MsetRead(a + [CMD_MSET], ps, z);
  }

  /** Reading the record of an encodable command gives the command back and ends at its last
      byte, whatever surrounds it. */
  lemma RecordRoundTrip(a: Bytes, c: Command, z: Bytes)
    requires Encodable(c)
    ensures ReadRecord(a + Entry(c) + z, |a|) == Apply(c, |a| + |Entry(c)|)
  {
    match c {
      case Set(k, v, ttl) => SetRecord(a, k, v, ttl, z);
      case Del(_) => KeyRecord(a, c, z);
      case Incr(_) => KeyRecord(a, c, z);
      case Expire(k, s) => ExpireRecord(a, k, s, z);
      case FlushDb => OpSplit(a, CMD_FLUSHDB, [], z);
      case Mset(ps) => MsetRecord(a, ps, z);
    }
  }

  // ---- exactness --------------------------------------------------------------

  lemma FieldFits(data: Bytes, pos: nat, width: nat)
    requires pos <= |data|
    ensures
      var f := ReadField(data, pos, width);
      f.Field? ==> |f.value| < Pow256(width)
  {
    hide FromLe, Pow256;
  }

  lemma {:induction false} ReadPairsFit(data: Bytes, pos: nat, count: nat)
    requires pos <= |data|
    ensures PairsFit(ReadPairs(data, pos, count).0)
    decreases count
  {
    hide ReadField, Pow256;
    if count > 0 {
      Pow256Values();
      FieldFits(data, pos, 2);
      var f := ReadField(data, pos, 2);
      if f.Field? {
        FieldFits(data, f.next, 4);
        var g := ReadField(data, f.next, 4);
        if g.Field? {
          ReadPairsFit(data, g.next, count - 1);
        }
      }
    }
  }

  lemma ReadSetFits(data: Bytes, pos: nat)
    requires pos <= |data|
    ensures ReadSet(data, pos).Apply? ==> Encodable(ReadSet(data, pos).command)
  {
    Pow256Values();
    hide ReadField, FromLeI64, Pow256;
    FieldFits(data, pos, 2);
    var f := ReadField(data, pos, 2);
    if f.Field? {
      FieldFits(data, f.next, 4);
      var g := ReadField(data, f.next, 4);
      if g.Field? && g.next + 8 <= |data| {
        var ms := FromLeI64(data[g.next..g.next + 8]);
        assert ms > 0 ==> (ms * MILLI) % MILLI == 0 && (ms * MILLI) / MILLI == ms;
      }
    }
  }

  lemma ReadOtherFits(data: Bytes, pos: nat)
    requires pos <= |data|
    ensures ReadField(data, pos, 2).Field? ==> KeyFits(ReadField(data, pos, 2).value)
    ensures ReadExpire(data, pos).Apply? ==> Encodable(ReadExpire(data, pos).command)
    ensures ReadMset(data, pos).Apply? ==> Encodable(ReadMset(data, pos).command)
  {
    Pow256Values();
    hide ReadField, Pow256, FromLe, ReadPairs, PairsFit;
    FieldFits(data, pos, 2);
    if pos + 2 <= |data| {
      ReadPairsFit(data, pos + 2, FromLe(data[pos..pos + 2]));
    }
  }

  /** Whatever a replay applies is encodable: it stays within the field widths. */
  lemma AppliedIsEncodable(data: Bytes, pos: nat)
    requires pos < |data|
    ensures ReadRecord(data, pos).Apply? ==> Encodable(ReadRecord(data, pos).command)
  {
    hide ReadField, ReadSet, ReadExpire, ReadMset, PairsFit, KeyFits;
    ReadSetFits(data, pos + 1);
    ReadOtherFits(data, pos + 1);
  }

  /** A record means its own command exactly when keys, values, pair count and TTL fit their
      fields; a longer key, a sub-millisecond TTL or a TTL of zero comes back as something else. */
  lemma RecordExact(c: Command)
    requires IsWrite(c)
    ensures ReadRecord(Entry(c), 0) == Apply(c, |Entry(c)|) <==> Encodable(c)
  {
    hide ReadRecord, Entry, Encodable;
    AppliedIsEncodable(Entry(c), 0);
    if Encodable(c) {
      RecordRoundTrip([], c, []);
      assert [] + Entry(c) + [] == Entry(c);
    }
  }

  // ---- torn records -----------------------------------------------------------

  lemma FieldStable(data: Bytes, ext: Bytes, pos: nat, width: nat)
    requires pos <= |data| && data <= ext && ReadField(data, pos, width).Field?
    ensures ReadField(ext, pos, width) == ReadField(data, pos, width)
  {
    hide FromLe;
    assert ext[pos..pos + width] == data[pos..pos + width];
    var f := ReadField(data, pos, width);
    assert ext[pos + width..f.next] == data[pos + width..f.next];
  }

  lemma SetStepStable(data: Bytes, ext: Bytes, pos: nat)
    requires pos <= |data| && data <= ext && ReadSet(data, pos).Apply?
    ensures ReadSet(ext, pos) == ReadSet(data, pos)
  {
    hide ReadField, FromLeI64;
    FieldStable(data, ext, pos, 2);
    var f := ReadField(data, pos, 2);
    FieldStable(data, ext, f.next, 4);
    var g := ReadField(data, f.next, 4);
    assert ext[g.next..g.next + 8] == data[g.next..g.next + 8];
  }

  lemma ExpireStepStable(data: Bytes, ext: Bytes, pos: nat)
    requires pos <= |data| && data <= ext && ReadExpire(data, pos).Apply?
    ensures ReadExpire(ext, pos) == ReadExpire(data, pos)
  {
    hide ReadField, FromLe;
    FieldStable(data, ext, pos, 2);
    var f := ReadField(data, pos, 2);
    assert ext[f.next..f.next + 8] == data[f.next..f.next + 8];
  }

  /** Except for MSET, a record that is applied is the same record on every extension. */
  lemma StepStable(data: Bytes, ext: Bytes, pos: nat)
    requires pos < |data| && data <= ext && data[pos] != CMD_MSET && ReadRecord(data, pos).Apply?
    ensures ReadRecord(ext, pos) == ReadRecord(data, pos)
  {
    hide ReadField, ReadSet, ReadExpire;
    assert ext[pos] == data[pos];
    if data[pos] == CMD_SET {
      SetStepStable(data, ext, pos + 1);
    } else if data[pos] == CMD_EXPIRE {
      ExpireStepStable(data, ext, pos + 1);
    } else if data[pos] == CMD_DEL || data[pos] == CMD_INCR {
      FieldStable(data, ext, pos + 1, 2);
    }
  }

  /** The torn records that the reader takes for records. */
  predicate Misread(c: Command, kept: int) {
    c.Mset? && kept >= 3
  }

  lemma OpcodeMset(c: Command)
    requires IsWrite(c)
    ensures Entry(c)[0] == CMD_MSET <==> c.Mset?
  {
  }

  /** A record cut after `kept` of its bytes stops the replay, unless it is an MSET cut after
      its pair count: that one is applied as far as its pairs go. */
  lemma TornRecord(a: Bytes, c: Command, kept: nat)
    requires Encodable(c) && 0 < kept < |Entry(c)|
    ensures
      var s := ReadRecord(a + Entry(c)[..kept], |a|);
      s.Stop? <==> !Misread(c, kept)
  {
    hide Entry, ReadRecord;
    var t := Entry(c)[..kept];
    var data, whole := a + t, a + Entry(c);
    OpcodeMset(c);
    assert data[|a|] == Entry(c)[0];
    if c.Mset? {
      TornMset(data, |a|);
    } else {
      RecordRoundTrip(a, c, []);
      assert a + Entry(c) + [] == whole;
      assert data <= whole;
      if ReadRecord(data, |a|).Apply? {
        StepStable(data, whole, |a|);
        AppliedWithin(data, |a|);
      }
    }
  }

  lemma AppliedWithin(data: Bytes, pos: nat)
    requires pos < |data| && ReadRecord(data, pos).Apply?
    ensures ReadRecord(data, pos).next <= |data|
  {
  }

  lemma TornMset(data: Bytes, pos: nat)
    requires pos < |data| && data[pos] == CMD_MSET
    ensures ReadRecord(data, pos).Stop? <==> |data| < pos + 3
  {
    hide ReadPairs, FromLe;
  }

  // ---- whole logs -------------------------------------------------------------

  function Log(cs: seq<Command>): Bytes
    requires forall i :: 0 <= i < |cs| ==> IsWrite(cs[i])
  {
    if cs == [] then [] else Entry(cs[0]) + Log(cs[1..])
  }

  predicate AllEncodable(cs: seq<Command>) {
    forall i :: 0 <= i < |cs| ==> Encodable(cs[i]) && IsWrite(cs[i])
  }

  lemma ReadLogStep(data: Bytes, pos: nat)
    requires pos < |data|
    ensures ReadRecord(data, pos).Stop? ==> ReadLog(data, pos) == []
    ensures ReadRecord(data, pos).Apply? ==>
      ReadLog(data, pos) == [ReadRecord(data, pos).command] + ReadLog(data, ReadRecord(data, pos).next)
  {
  }

  /** A log reads back as its commands and then as whatever follows them. */
  lemma {:induction false} LogRead(a: Bytes, cs: seq<Command>, z: Bytes)
    requires AllEncodable(cs)
    ensures ReadLog(a + Log(cs) + z, |a|) == cs + ReadLog(a + Log(cs) + z, |a| + |Log(cs)|)
    decreases |cs|
  {
    hide Entry, Encodable, ReadRecord, ReadLog;
    var data := a + Log(cs) + z;
    if cs == [] {
      assert cs + ReadLog(data, |a|) == ReadLog(data, |a|);
    } else {
      var e, rest := Entry(cs[0]), Log(cs[1..]);
      assert Encodable(cs[0]);
      RecordRoundTrip(a, cs[0], rest + z);
      assert data == a + e + (rest + z);
      ReadLogStep(data, |a|);
      LogRead(a + e, cs[1..], z);
      assert data == (a + e) + rest + z;
      var tail := ReadLog(data, |a| + |e| + |rest|);
      assert [cs[0]] + (cs[1..] + tail) == cs + tail;
    }
  }

  /** A log that was written whole is read back exactly. */
  lemma LogRoundTrip(cs: seq<Command>)
    requires AllEncodable(cs)
    ensures ReadLog(Log(cs), 0) == cs
  {
    hide Log, ReadLog;
    LogRead([], cs, []);
    assert [] + Log(cs) + [] == Log(cs);
    ReadLogEnd(Log(cs));
    assert cs + [] == cs;
  }

  lemma ReadLogEnd(data: Bytes)
    ensures ReadLog(data, |data|) == []
  {
  }

  lemma {:induction false} ReadLogEncodable(data: Bytes, pos: nat)
    requires pos <= |data|
    ensures AllEncodable(ReadLog(data, pos))
    decreases |data| - pos
  {
    hide ReadRecord, Encodable;
    if pos < |data| {
      AppliedIsEncodable(data, pos);
      if ReadRecord(data, pos).Apply? {
        EncodableIsWrite(ReadRecord(data, pos).command);
        ReadLogEncodable(data, ReadRecord(data, pos).next);
      }
    }
  }

  lemma EncodableIsWrite(c: Command)
    requires Encodable(c)
    ensures IsWrite(c)
  {
  }

  /** A log is read back exactly when every command in it fits its fields: one key of 2^16 bytes
      or one TTL of zero anywhere is enough to change what start-up applies. */
  lemma LogExact(cs: seq<Command>)
    requires forall i :: 0 <= i < |cs| ==> IsWrite(cs[i])
    ensures ReadLog(Log(cs), 0) == cs <==> AllEncodable(cs)
  {
    hide Encodable, ReadLog, Log;
    ReadLogEncodable(Log(cs), 0);
    if AllEncodable(cs) {
      LogRoundTrip(cs);
    }
  }

  /** A DEL of a key of 2^16 bytes: the length field says zero, and the bytes of the key are
      left to be read as records. */
  lemma LongKeySpills(k: Key)
    requires |k| == TWO16
    ensures ReadRecord(Entry(Del(k)), 0) == Apply(Del([]), 3)
  {
    var len := Le(TWO16, 2);
    LeZero();
    assert Entry(Del(k))[1..3] == len && Entry(Del(k))[3..3] == [];
    hide Le, FromLe;
  }

  lemma LeZero()
    ensures FromLe(Le(TWO16, 2)) == 0 && |Le(TWO16, 2)| == 2
  {
    assert Le(TWO16, 2) == [0] + Le(256, 1);
    assert Le(256, 1) == [0] + Le(1, 0);
  }

  // ---- a log that was torn and then continued ----------------------------------

  /** The file is reopened for appending and a torn tail is not cut off. Whatever follows the
      whole records, the reader applies those first; records appended behind a clean end are all
      read, and behind a torn one the reader goes on from the middle of that record. */
  lemma ContinuedLog(cs: seq<Command>, c: Command, kept: nat, ds: seq<Command>)
    requires AllEncodable(cs) && AllEncodable(ds) && Encodable(c) && IsWrite(c) && kept <= |Entry(c)|
    ensures
      var data := Log(cs) + Entry(c)[..kept] + Log(ds);
      && ReadLog(data, 0) == cs + ReadLog(data, |Log(cs)|)
      && (kept == 0 ==> ReadLog(data, 0) == cs + ds)
      && (kept == |Entry(c)| ==> ReadLog(data, 0) == cs + [c] + ds)
  {
    hide Entry, Log, ReadLog, Encodable;
    var t := Entry(c)[..kept];
    ContinuedAny(cs, t, Log(ds));
    if kept == 0 {
      assert t == [] && Log(cs) + t == Log(cs);
      ContinuedAfter(Log(cs), ds);
    } else if kept == |Entry(c)| {
      assert t == Entry(c);
      ContinuedWhole(cs, c, ds);
    }
  }

  lemma ContinuedAny(cs: seq<Command>, t: Bytes, rest: Bytes)
    requires AllEncodable(cs)
    ensures ReadLog(Log(cs) + t + rest, 0) == cs + ReadLog(Log(cs) + t + rest, |Log(cs)|)
  {
    hide Entry, Log, ReadLog, Encodable;
    LogRead([], cs, t + rest);
    assert [] + Log(cs) + (t + rest) == Log(cs) + t + rest;
  }

  lemma ContinuedAfter(a: Bytes, ds: seq<Command>)
    requires AllEncodable(ds)
    ensures ReadLog(a + Log(ds), |a|) == ds
  {
    hide Entry, Log, ReadLog, Encodable;
    LogRead(a, ds, []);
    assert a + Log(ds) + [] == a + Log(ds);
    ReadLogEnd(a + Log(ds));
    assert ds + [] == ds;
  }

  lemma ContinuedWhole(cs: seq<Command>, c: Command, ds: seq<Command>)
    requires AllEncodable(cs) && AllEncodable(ds) && Encodable(c) && IsWrite(c)
    ensures ReadLog(Log(cs) + Entry(c) + Log(ds), 0) == cs + [c] + ds
  {
    hide Entry, Log, ReadLog, ReadRecord, Encodable;
    var data := Log(cs) + Entry(c) + Log(ds);
    ContinuedAny(cs, Entry(c), Log(ds));
    RecordRoundTrip(Log(cs), c, Log(ds));
    ReadLogStep(data, |Log(cs)|);
    ContinuedAfter(Log(cs) + Entry(c), ds);
    assert cs + ([c] + ds) == cs + [c] + ds;
  }

  /** Acknowledged records that are lost: behind a DEL torn after its key length, two commands
      logged after the restart are taken for the two bytes of its key. */
  lemma TornTailSwallows(cs: seq<Command>)
    requires AllEncodable(cs)
    ensures
      var torn := Entry(Del([97, 98]))[..3];
      ReadLog(Log(cs) + torn + Log([FlushDb, FlushDb]), 0) == cs + [Del([5, 5])]
  {
    hide Entry, Log, ReadLog, Encodable;
    SwallowExample();
    SwallowedBytes(cs, Del([5, 5]), [2, 2, 0], [5, 5]);
  }

  lemma SwallowedBytes(cs: seq<Command>, c: Command, torn: Bytes, rest: Bytes)
    requires AllEncodable(cs) && Encodable(c) && IsWrite(c) && Entry(c) == torn + rest
    ensures ReadLog(Log(cs) + torn + rest, 0) == cs + [c]
  {
    ContinuedLog(cs, c, |Entry(c)|, []);
    assert Log([]) == [];
    hide Entry, Log, ReadLog, Encodable;
    assert Entry(c)[..|Entry(c)|] == Entry(c);
    assert Log(cs) + Entry(c) + [] == Log(cs) + torn + rest;
    assert cs + [c] + [] == cs + [c];
  }

  lemma SwallowExample()
    ensures Entry(Del([97, 98]))[..3] == [2, 2, 0]
    ensures Log([FlushDb, FlushDb]) == [5, 5]
    ensures Entry(Del([5, 5])) == [2, 2, 0] + [5, 5]
    ensures Encodable(Del([5, 5]))
  {
    assert Le(2, 2) == [2] + Le(0, 1) && Le(0, 1) == [0] + Le(0, 0);
    assert [FlushDb, FlushDb][1..] == [FlushDb] && [FlushDb][1..] == [];
  }

  // ---- what any record reads back as -------------------------------------------

  /** Keys, values, seconds and pair counts fit their fields; the TTL of a SET is arbitrary. */
  predicate Fits(c: Command) {
    match c
    case Set(k, v, _) => KeyFits(k) && ValueFits(v)
    case _ => Encodable(c)
  }

  predicate AllFit(cs: seq<Command>) {
    forall i :: 0 <= i < |cs| ==> Fits(cs[i]) && IsWrite(cs[i])
  }

  /** The command that the record of a fitting one stands for: its TTL in whole milliseconds of
      64 bits, and none at all when that is not positive. */
  function ReadBack(c: Command): Command {
    match c
    case Set(k, v, ttl) => Set(k, v, TtlBack(ttl))
    case _ => c
  }

  function ReadBacks(cs: seq<Command>): (r: seq<Command>)
    ensures |r| == |cs| && forall i :: 0 <= i < |cs| ==> r[i] == ReadBack(cs[i])
  {
    seq(|cs|, i requires 0 <= i < |cs| => ReadBack(cs[i]))
  }

  lemma RecordReadBack(a: Bytes, c: Command, z: Bytes)
    requires Fits(c) && IsWrite(c)
    ensures ReadRecord(a + Entry(c) + z, |a|) == Apply(ReadBack(c), |a| + |Entry(c)|)
  {
    hide Entry, ReadRecord, TtlBack;
    if c.Set? {
      SetRecordAny(a, c.key, c.value, c.ttl, z);
    } else {
      RecordRoundTrip(a, c, z);
    }
  }

  lemma {:induction false} LogReadBack(a: Bytes, cs: seq<Command>)
    requires AllFit(cs)
    ensures ReadLog(a + Log(cs), |a|) == ReadBacks(cs)
    decreases |cs|
  {
    hide Entry, Fits, ReadRecord, ReadLog, ReadBack;
    var data := a + Log(cs);
    if cs == [] {
      assert data == a;
      ReadLogEnd(a);
      assert ReadBacks(cs) == [];
    } else {
      var e, rest := Entry(cs[0]), Log(cs[1..]);
      assert Fits(cs[0]);
      RecordReadBack(a, cs[0], rest);
      assert data == a + e + rest;
      ReadLogStep(data, |a|);
      LogReadBack(a + e, cs[1..]);
      assert data == (a + e) + rest;
      assert ReadBacks(cs) == [ReadBack(cs[0])] + ReadBacks(cs[1..]);
    }
  }

  /** What start-up applies of a log whose commands fit, TTLs of zero and all. */
  lemma LogAsRead(cs: seq<Command>)
    requires AllFit(cs)
    ensures ReadLog(Log(cs), 0) == ReadBacks(cs)
  {
    hide Log, ReadLog, Fits;
    LogReadBack([], cs);
    assert [] + Log(cs) == Log(cs);
  }

  /** A TTL comes back as none, or as a positive one. */
  lemma TtlBackPositive(ttl: Option<Duration>)
    ensures TtlBack(ttl).Some? ==> ttl.Some? && TtlBack(ttl).value > 0
    ensures ttl == Some(0) ==> TtlBack(ttl).None?
  {
    match ttl
    case None => LeI64RoundTrip(-1);
    case Some(d) => LeI64RoundTrip(d / MILLI);
  }

  /** Torn tail. Of a log cut inside the record of `c`, a replay applies exactly the whole
      records before the cut, in order, if and only if the cut is not past the pair count of
      an MSET; past it, the replay counts at least one record more. */
  lemma TornTail(cs: seq<Command>, c: Command, kept: nat)
    requires AllEncodable(cs) && Encodable(c) && IsWrite(c) && kept < |Entry(c)|
    ensures
      var data := Log(cs) + Entry(c)[..kept];
      && (ReadLog(data, 0) == cs <==> !Misread(c, kept))
      && (Misread(c, kept) ==> |ReadLog(data, 0)| > |cs| && ReadLog(data, 0)[..|cs|] == cs)
  {
    hide Entry, Log, ReadLog, ReadRecord, Encodable;
    var t := Entry(c)[..kept];
    var data := Log(cs) + t;
    LogRead([], cs, t);
    assert [] + Log(cs) + t == data;
    var tail := ReadLog(data, |Log(cs)|);
    if kept == 0 {
      assert data == Log(cs);
      ReadLogEnd(data);
      assert cs + [] == cs;
    } else {
      TornRecord(Log(cs), c, kept);
      ReadLogStep(data, |Log(cs)|);
      if !Misread(c, kept) {
        assert cs + [] == cs;
      } else {
        assert tail != [];
        assert |cs + tail| > |cs|;
      }
    }
  }

  /** A concrete torn MSET: cut inside its first key, the bytes of that key are read as a
      record of their own, and the replay flushes the whole database. */
  lemma TornMsetFlushes()
    ensures
      var c := Mset([([5, 97], [118])]);
      ReadLog(Entry(c)[..6], 0) == [Mset([]), FlushDb]
  {
    EntryOfExample();
    var data: Bytes := [6, 1, 0, 2, 0, 5];
    FirstOfExample(data);
    hide ReadLog, Entry;
    assert data[5] == CMD_FLUSHDB;
    assert ReadRecord(data, 5) == Apply(FlushDb, 6);
    hide ReadRecord;
    ReadLogEnd(data);
    ReadLogStep(data, 0);
    ReadLogStep(data, 5);
  }

  lemma FirstOfExample(data: Bytes)
    requires data == [6, 1, 0, 2, 0, 5]
    ensures ReadRecord(data, 0) == Apply(Mset([]), 5)
  {
    LeSmall();
    assert data[1..3] == Le(1, 2) && data[3..5] == Le(2, 2);
    LeExact248(1);
    LeExact248(2);
    hide FromLe, Le;
    assert ReadField(data, 3, 2) == Torn(5);
    assert ReadPairs(data, 3, 1) == ([], 5);
  }

  lemma LeSmall()
    ensures Le(1, 2) == [1, 0] && Le(2, 2) == [2, 0]
  {
    assert Le(0, 0) == [];
    assert Le(0, 1) == [0];
  }

  lemma EntryOfExample()
    ensures Entry(Mset([([5, 97], [118])]))[..6] == [6, 1, 0, 2, 0, 5]
  {
    LeSmall();
    var ps: seq<(Key, Bytes)> := [([5, 97], [118])];
    hide Le;
    var k := KeyField([5, 97]);
    assert k == [2, 0, 5, 97];
    var f := PairFields(ps);
    assert f == k + ValueField([118]) + PairFields(ps[1..]);
    assert f[..3] == [2, 0, 5];
    var e := Entry(Mset(ps));
    assert e == [6] + Le(1, 2) + f;
    assert e[..6] == [6] + Le(1, 2) + f[..3];
  }
}
