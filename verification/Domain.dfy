/** Commands, stored values and the command names of the protocol.
    Keys are byte strings; an instant is a number of nanoseconds. */
module Domain {
  import opened Bytes

  type Key = Bytes
  type Instant = nat
  type Duration = nat

  const MILLI: nat := 1_000_000
  const SECOND: nat := 1_000_000_000

  datatype Command =
    | Ping
    | Get(key: Key)
    | Set(key: Key, value: Bytes, ttl: Option<Duration>)
    | Del(key: Key)
    | Incr(key: Key)
    | Info
    | DbSize
    | Exists(key: Key)
    | Ttl(key: Key)
    | Expire(key: Key, seconds: nat)
    | FlushDb
    | Keys
    | Mget(keys: seq<Key>)
    | Mset(pairs: seq<(Key, Bytes)>)

  /** A stored value with its optional deadline and its last-write time. */
  datatype ValueEntry = ValueEntry(data: Bytes, expiresAt: Option<Instant>, createdAt: Option<Instant>) {
    predicate IsExpiredAt(now: Instant) {
      expiresAt.Some? && now >= expiresAt.value
    }
  }

  function NewEntry(data: Bytes, now: Instant): ValueEntry {
    ValueEntry(data, None, Some(now))
  }

  /** The entry a SET stores: `with_ttl` when a TTL is given, `new` otherwise. */
  function SetEntry(data: Bytes, ttl: Option<Duration>, now: Instant): ValueEntry {
    ValueEntry(data, if ttl.Some? then Some(now + ttl.value) else None, Some(now))
  }

  // ---- command names --------------------------------------------------------

  datatype Verb =
    | VGet | VSet | VPing | VDel | VIncr | VInfo | VDbSize | VExists
    | VTtl | VExpire | VFlushDb | VKeys | VMget | VMset | VUnknown

  const GET: Bytes := [71, 69, 84]
  const SET: Bytes := [83, 69, 84]
  const PING: Bytes := [80, 73, 78, 71]
  const DEL: Bytes := [68, 69, 76]
  const INCR: Bytes := [73, 78, 67, 82]
  const INFO: Bytes := [73, 78, 70, 79]
  const DBSIZE: Bytes := [68, 66, 83, 73, 90, 69]
  const EXISTS: Bytes := [69, 88, 73, 83, 84, 83]
  const TTL: Bytes := [84, 84, 76]
  const EXPIRE: Bytes := [69, 88, 80, 73, 82, 69]
  const FLUSHDB: Bytes := [70, 76, 85, 83, 72, 68, 66]
  const KEYS: Bytes := [75, 69, 89, 83]
  const MGET: Bytes := [77, 71, 69, 84]
  const MSET: Bytes := [77, 83, 69, 84]
  const EX: Bytes := [69, 88]
  const PX: Bytes := [80, 88]

  /** Which command a name selects. The names differ pairwise even ignoring case, so
      the order of the tests, which varies between the parsers, does not matter. */
  function VerbOf(w: Bytes): Verb {
    if EqIgnoreCase(w, GET) then VGet
    else if EqIgnoreCase(w, SET) then VSet
    else if EqIgnoreCase(w, PING) then VPing
    else if EqIgnoreCase(w, DEL) then VDel
    else if EqIgnoreCase(w, INCR) then VIncr
    else if EqIgnoreCase(w, INFO) then VInfo
    else if EqIgnoreCase(w, DBSIZE) then VDbSize
    else if EqIgnoreCase(w, EXISTS) then VExists
    else if EqIgnoreCase(w, TTL) then VTtl
    else if EqIgnoreCase(w, EXPIRE) then VExpire
    else if EqIgnoreCase(w, FLUSHDB) then VFlushDb
    else if EqIgnoreCase(w, KEYS) then VKeys
    else if EqIgnoreCase(w, MGET) then VMget
    else if EqIgnoreCase(w, MSET) then VMset
    else VUnknown
  }

  function NameOf(v: Verb): Bytes
    requires !v.VUnknown?
  {
    match v
    case VGet => GET
    case VSet => SET
    case VPing => PING
    case VDel => DEL
    case VIncr => INCR
    case VInfo => INFO
    case VDbSize => DBSIZE
    case VExists => EXISTS
    case VTtl => TTL
    case VExpire => EXPIRE
    case VFlushDb => FLUSHDB
    case VKeys => KEYS
    case VMget => MGET
    case VMset => MSET
  }

  lemma ShortNames(w: Bytes)
    requires w in {GET, SET, DEL, TTL}
    ensures EqIgnoreCase(w, GET) <==> w == GET
    ensures EqIgnoreCase(w, SET) <==> w == SET
    ensures EqIgnoreCase(w, DEL) <==> w == DEL
    ensures EqIgnoreCase(w, TTL) <==> w == TTL
  {
    assert ToLower(w[0]) != ToLower(GET[0]) || w == GET;
    assert ToLower(w[0]) != ToLower(SET[0]) || w == SET;
    assert ToLower(w[0]) != ToLower(DEL[0]) || w == DEL;
    assert ToLower(w[0]) != ToLower(TTL[0]) || w == TTL;
  }

  lemma MediumNames(w: Bytes)
    requires w in {PING, INCR, INFO, KEYS, MGET, MSET}
    ensures EqIgnoreCase(w, PING) <==> w == PING
    ensures EqIgnoreCase(w, INCR) <==> w == INCR
    ensures EqIgnoreCase(w, INFO) <==> w == INFO
    ensures EqIgnoreCase(w, KEYS) <==> w == KEYS
    ensures EqIgnoreCase(w, MGET) <==> w == MGET
    ensures EqIgnoreCase(w, MSET) <==> w == MSET
  {
    assert w == PING || ToLower(w[0]) != ToLower(PING[0]);
    assert w == INCR || ToLower(w[0]) != ToLower(INCR[0]) || ToLower(w[2]) != ToLower(INCR[2]);
    assert w == INFO || ToLower(w[0]) != ToLower(INFO[0]) || ToLower(w[2]) != ToLower(INFO[2]);
    assert w == KEYS || ToLower(w[0]) != ToLower(KEYS[0]);
    assert w == MGET || ToLower(w[1]) != ToLower(MGET[1]);
    assert w == MSET || ToLower(w[1]) != ToLower(MSET[1]);
  }

  lemma LongNames(w: Bytes)
    requires w in {DBSIZE, EXISTS, EXPIRE}
    ensures EqIgnoreCase(w, DBSIZE) <==> w == DBSIZE
    ensures EqIgnoreCase(w, EXISTS) <==> w == EXISTS
    ensures EqIgnoreCase(w, EXPIRE) <==> w == EXPIRE
  {
    assert w == DBSIZE || ToLower(w[0]) != ToLower(DBSIZE[0]);
    assert w == EXISTS || ToLower(w[2]) != ToLower(EXISTS[2]);
    assert w == EXPIRE || ToLower(w[2]) != ToLower(EXPIRE[2]);
  }

  lemma LengthTells(a: Bytes, b: Bytes)
    ensures |a| != |b| ==> !EqIgnoreCase(a, b)
    ensures a == b ==> EqIgnoreCase(a, b)
  {
  }

  lemma VerbOfShort(v: Verb)
    requires v in {VGet, VSet, VDel, VTtl}
    ensures VerbOf(NameOf(v)) == v
  {
    var w := NameOf(v);
    ShortNames(w);
    hide EqIgnoreCase;
    LengthTells(w, PING); LengthTells(w, INCR); LengthTells(w, INFO); LengthTells(w, DBSIZE); LengthTells(w, EXISTS);
  }

  lemma VerbOfMedium(v: Verb)
    requires v in {VPing, VIncr, VInfo, VKeys, VMget, VMset}
    ensures VerbOf(NameOf(v)) == v
  {
    var w := NameOf(v);
    MediumNames(w);
    hide EqIgnoreCase;
    LengthTells(w, GET); LengthTells(w, SET); LengthTells(w, DEL); LengthTells(w, TTL);
    LengthTells(w, DBSIZE); LengthTells(w, EXISTS); LengthTells(w, EXPIRE); LengthTells(w, FLUSHDB);
  }

  lemma VerbOfLong(v: Verb)
    requires v in {VDbSize, VExists, VExpire, VFlushDb}
    ensures VerbOf(NameOf(v)) == v
  {
    var w := NameOf(v);
    if w != FLUSHDB {
      LongNames(w);
    }
    hide EqIgnoreCase;
    LengthTells(w, GET); LengthTells(w, SET); LengthTells(w, DEL); LengthTells(w, TTL);
    LengthTells(w, PING); LengthTells(w, INCR); LengthTells(w, INFO); LengthTells(w, FLUSHDB);
    LengthTells(w, DBSIZE); LengthTells(w, EXISTS); LengthTells(w, EXPIRE);
  }

  /** Every name selects its own command: no earlier test in the chain captures it. */
  lemma VerbOfName(v: Verb)
    requires !v.VUnknown?
    ensures VerbOf(NameOf(v)) == v
  {
    match v {
      case VGet | VSet | VDel | VTtl => VerbOfShort(v);
      case VDbSize | VExists | VExpire | VFlushDb => VerbOfLong(v);
      case _ => VerbOfMedium(v);
    }
  }

  // ---- arguments ------------------------------------------------------------

  /** The meaning of `EX seconds` and `PX millis`; None is a syntax error. */
  function TtlOption(opt: Bytes, arg: Bytes): (r: Option<Duration>) {
    if EqIgnoreCase(opt, EX) then
      match ParseU64(arg) { case Some(n) => Some(n * SECOND) case None => None }
    else if EqIgnoreCase(opt, PX) then
      match ParseU64(arg) { case Some(n) => Some(n * MILLI) case None => None }
    else None
  }

  /** The same text up to the case of its letters. */
  predicate Recased(w: Bytes, w': Bytes) {
    |w| == |w'| &&
    forall i :: 0 <= i < |w| ==>
      || w'[i] == w[i]
      || (65 <= w[i] <= 90 && w'[i] == w[i] + 32)
      || (97 <= w[i] <= 122 && w'[i] == w[i] - 32)
  }

  lemma RecasedEqual(w: Bytes, w': Bytes, name: Bytes)
    requires Recased(w, w')
    ensures EqIgnoreCase(w, name) <==> EqIgnoreCase(w', name)
  {
    assert forall i :: 0 <= i < |w| ==> ToLower(w[i]) == ToLower(w'[i]);
  }

  /** Command and option names are read in any mixture of cases. */
  lemma CaseDoesNotMatter(w: Bytes, w': Bytes, arg: Bytes)
    requires Recased(w, w')
    ensures VerbOf(w) == VerbOf(w') && TtlOption(w, arg) == TtlOption(w', arg)
  {
    hide EqIgnoreCase, Recased, ParseU64;
    forall name: Bytes
      ensures EqIgnoreCase(w, name) <==> EqIgnoreCase(w', name)
    {
      RecasedEqual(w, w', name);
    }
  }

  /** Consecutive items taken two by two. */
  function PairUp(items: seq<Bytes>): (r: seq<(Bytes, Bytes)>)
    requires |items| % 2 == 0
    ensures |r| == |items| / 2
    ensures forall i :: 0 <= i < |r| ==> r[i] == (items[2 * i], items[2 * i + 1])
  {
    seq(|items| / 2, i requires 0 <= i < |items| / 2 => (items[2 * i], items[2 * i + 1]))
  }

  function Flatten(pairs: seq<(Bytes, Bytes)>): (r: seq<Bytes>)
    ensures |r| == 2 * |pairs|
    ensures forall i :: 0 <= i < |pairs| ==> r[2 * i] == pairs[i].0 && r[2 * i + 1] == pairs[i].1
  {
    seq(2 * |pairs|, i requires 0 <= i < 2 * |pairs| =>
      if i % 2 == 0 then pairs[i / 2].0 else pairs[i / 2].1)
  }

  datatype ParseError = EmptyCommand | UnknownCommand(verb: Bytes) | SyntaxError

  /** What a frame parser answers. */
  datatype Frame =
    | Complete(consumed: nat, command: Command)
    | Incomplete
    | Skip(consumed: nat)
    | Failed(error: ParseError)
}
