/**
 * The Redis server the client talks to, as an in-memory store. Each
 * command is the reply and state change Redis documents for it; the
 * connection pool, the wire protocol and time are not modelled (a key's
 * expiry is the explicit step `Elapse`).
 */
module Server {
  import opened Wrappers

  /** The value stored under a key, one case per Redis data type. */
  datatype Entry =
    | Str(s: string)
    | Hash(fields: map<string, string>)
    | SetOf(members: set<string>)
    | ListOf(items: seq<string>)
    | ZSetOf(ranked: seq<string>)   // members in score order; scores are not modelled

  datatype Message = Message(channel: string, payload: string)

  /** A negative list index counts from the end, as in LINDEX and LSET. */
  function Normalize(index: int, n: nat): int
  {
    if index < 0 then index + n else index
  }

  /** The inclusive range `start..stop` of LRANGE and ZRANGE, clamped to `s`. */
  function Range<T>(s: seq<T>, start: int, stop: int): (r: seq<T>)
    ensures |r| <= |s|
    ensures forall x | x in r :: x in s
  {
    var n := |s|;
    var a := Normalize(start, n);
    var b := Normalize(stop, n);
    var lo := if a < 0 then 0 else a;
    var hi := if b >= n then n - 1 else b;
    if lo > hi || lo >= n then [] else s[lo..hi + 1]
  }

  function Reverse<T>(s: seq<T>): (r: seq<T>)
    ensures |r| == |s|
  {
    if s == [] then [] else Reverse(s[1..]) + [s[0]]
  }

  /** `s` without the elements of `xs`. */
  function Without(s: seq<string>, xs: set<string>): (r: seq<string>)
    ensures forall x | x in r :: x in s && x !in xs
  {
    if s == [] then []
    else if s[0] in xs then Without(s[1..], xs)
    else [s[0]] + Without(s[1..], xs)
  }

  /** The entry stored under `key` of the type a command expects, if any. */
  function StringAt(data: map<string, Entry>, key: string): Result<Option<string>>
  {
    if key !in data then Ok(None)
    else if data[key].Str? then Ok(Some(data[key].s))
    else Err(WrongType)
  }

  function HashAt(data: map<string, Entry>, key: string): Result<map<string, string>>
  {
    if key !in data then Ok(map[])
    else if data[key].Hash? then Ok(data[key].fields)
    else Err(WrongType)
  }

  function SetAt(data: map<string, Entry>, key: string): Result<set<string>>
  {
    if key !in data then Ok({})
    else if data[key].SetOf? then Ok(data[key].members)
    else Err(WrongType)
  }

  function ListAt(data: map<string, Entry>, key: string): Result<seq<string>>
  {
    if key !in data then Ok([])
    else if data[key].ListOf? then Ok(data[key].items)
    else Err(WrongType)
  }

  function ZSetAt(data: map<string, Entry>, key: string): Result<seq<string>>
  {
    if key !in data then Ok([])
    else if data[key].ZSetOf? then Ok(data[key].ranked)
    else Err(WrongType)
  }

  /** Redis removes a collection when its last element goes. */
  function StoreList(data: map<string, Entry>, key: string, items: seq<string>): map<string, Entry>
  {
    if items == [] then data - {key} else data[key := ListOf(items)]
  }

  /** HGET key field */
  function FieldAt(data: map<string, Entry>, key: string, field: string): (r: Result<Option<string>>)
    ensures r.Ok? <==> HashAt(data, key).Ok?
    ensures r.Ok? ==> r.value == Lookup(HashAt(data, key).value, field)
  {
    match HashAt(data, key)
    case Err(e) => Err(e)
    case Ok(h) => Ok(Lookup(h, field))
  }

  /** ZRANGE key start stop, or ZREVRANGE when `rev`. */
  function ZRangeAt(data: map<string, Entry>, key: string, start: int, stop: int, rev: bool): (r: Result<seq<string>>)
    ensures r.Ok? <==> ZSetAt(data, key).Ok?
    ensures r.Ok? ==> forall m | m in r.value :: m in ZSetAt(data, key).value
  {
    match ZSetAt(data, key)
    case Err(e) => Err(e)
    case Ok(z) =>
      if rev then
        ReverseHasSameElements(z);
        Ok(Range(Reverse(z), start, stop))
      else Ok(Range(z, start, stop))
  }

  /** LRANGE key start stop */
  function LRangeAt(data: map<string, Entry>, key: string, start: int, stop: int): (r: Result<seq<string>>)
    ensures r.Ok? <==> ListAt(data, key).Ok?
    ensures r.Ok? ==> forall x | x in r.value :: x in ListAt(data, key).value
  {
    match ListAt(data, key)
    case Err(e) => Err(e)
    case Ok(l) => Ok(Range(l, start, stop))
  }

  /** LINDEX key index: `None` outside the list; a negative index counts from the end. */
  function LIndexAt(data: map<string, Entry>, key: string, index: int): (r: Result<Option<string>>)
    ensures r.Ok? <==> ListAt(data, key).Ok?
    ensures r.Ok? ==> var l := ListAt(data, key).value;
                      var i := Normalize(index, |l|);
                      r.value == if 0 <= i < |l| then Some(l[i]) else None
  {
    match ListAt(data, key)
    case Err(e) => Err(e)
    case Ok(l) =>
      var i := Normalize(index, |l|);
      Ok(if 0 <= i < |l| then Some(l[i]) else None)
  }

  lemma {:induction false} ReverseHasSameElements<T>(s: seq<T>)
    ensures forall x | x in Reverse(s) :: x in s
  {
    if s != [] {
      ReverseHasSameElements(s[1..]);
    }
  }

  /** A command's effect on the store: its error reply, or the store it leaves. */
  function Status(c: Result<map<string, Entry>>): Outcome
  {
    if c.Ok? then Pass else Fail(c.error)
  }

  /** The store after a command: unchanged when it replied with an error. */
  function Applied(data: map<string, Entry>, c: Result<map<string, Entry>>): map<string, Entry>
  {
    if c.Ok? then c.value else data
  }

  function HSetCmd(data: map<string, Entry>, key: string, field: string, value: string): (c: Result<map<string, Entry>>)
    ensures HashAt(data, key).Err? <==> c == Err(WrongType)
    ensures c.Ok? ==> c.value == data[key := Hash(HashAt(data, key).value[field := value])]
  {
    match HashAt(data, key)
    case Err(e) => Err(e)
    case Ok(h) => Ok(data[key := Hash(h[field := value])])
  }

  /** HDEL key f1 f2 ...: needs at least one field; an emptied hash is removed. */
  function HDelCmd(data: map<string, Entry>, key: string, fields: seq<string>): (c: Result<map<string, Entry>>)
    ensures |fields| == 0 ==> c == Err(WrongArity)
    ensures |fields| > 0 && HashAt(data, key).Err? ==> c == Err(WrongType)
    ensures c.Ok? ==> HashAt(c.value, key).Ok? && forall f | f in fields :: f !in HashAt(c.value, key).value
  {
    if |fields| == 0 then Err(WrongArity)
    else
      match HashAt(data, key)
      case Err(e) => Err(e)
      case Ok(h) =>
        var rest := h - set f | f in fields;
        Ok(if rest == map[] then data - {key} else data[key := Hash(rest)])
  }

  /** SADD key m1 m2 ...: needs at least one member. */
  function SAddCmd(data: map<string, Entry>, key: string, members: seq<string>): (c: Result<map<string, Entry>>)
    ensures |members| == 0 ==> c == Err(WrongArity)
    ensures |members| > 0 && SetAt(data, key).Err? ==> c == Err(WrongType)
    ensures c.Ok? ==> SetAt(c.value, key) == Ok(SetAt(data, key).value + set m | m in members)
    ensures c.Ok? ==> c.value - {key} == data - {key}
  {
    if |members| == 0 then Err(WrongArity)
    else
      match SetAt(data, key)
      case Err(e) => Err(e)
      case Ok(s) => Ok(data[key := SetOf(s + set m | m in members)])
  }

  /** SREM key m1 m2 ...: needs at least one member; an emptied set is removed. */
  function SRemCmd(data: map<string, Entry>, key: string, members: seq<string>): (c: Result<map<string, Entry>>)
    ensures |members| == 0 ==> c == Err(WrongArity)
    ensures |members| > 0 && SetAt(data, key).Err? ==> c == Err(WrongType)
    ensures c.Ok? ==> SetAt(c.value, key) == Ok(SetAt(data, key).value - set m | m in members)
    ensures c.Ok? ==> c.value - {key} == data - {key} && c.value.Keys <= data.Keys
  {
    if |members| == 0 then Err(WrongArity)
    else
      match SetAt(data, key)
      case Err(e) => Err(e)
      case Ok(s) =>
        var rest := s - set m | m in members;
        Ok(if rest == {} then data - {key} else data[key := SetOf(rest)])
  }

  /**
   * ZADD key score member: `rank` is the position the score gives the
   * member among the others, which is all the model keeps of scores.
   */
  function ZAddCmd(data: map<string, Entry>, key: string, rank: nat, member: string): (c: Result<map<string, Entry>>)
    ensures ZSetAt(data, key).Err? <==> c == Err(WrongType)
    ensures c.Ok? ==> ZSetAt(c.value, key).Ok? && member in ZSetAt(c.value, key).value
  {
    match ZSetAt(data, key)
    case Err(e) => Err(e)
    case Ok(z) =>
      var others := Without(z, {member});
      var at := if rank <= |others| then rank else |others|;
      assert (others[..at] + [member] + others[at..])[at] == member;
      Ok(data[key := ZSetOf(others[..at] + [member] + others[at..])])
  }

  /** ZREM key m1 m2 ...: needs at least one member; an emptied sorted set is removed. */
  function ZRemCmd(data: map<string, Entry>, key: string, members: seq<string>): (c: Result<map<string, Entry>>)
    ensures |members| == 0 ==> c == Err(WrongArity)
    ensures |members| > 0 && ZSetAt(data, key).Err? ==> c == Err(WrongType)
    ensures c.Ok? ==> ZSetAt(c.value, key).Ok? && forall m | m in members :: m !in ZSetAt(c.value, key).value
  {
    if |members| == 0 then Err(WrongArity)
    else
      match ZSetAt(data, key)
      case Err(e) => Err(e)
      case Ok(z) =>
        var rest := Without(z, set m | m in members);
        Ok(if rest == [] then data - {key} else data[key := ZSetOf(rest)])
  }

  /** LPUSH key v1 v2 ...: each value in turn goes to the head, so they end up reversed. */
  function LPushCmd(data: map<string, Entry>, key: string, values: seq<string>): (c: Result<map<string, Entry>>)
    ensures |values| == 0 ==> c == Err(WrongArity)
    ensures |values| > 0 && ListAt(data, key).Err? ==> c == Err(WrongType)
    ensures c.Ok? ==> ListAt(c.value, key) == Ok(Reverse(values) + ListAt(data, key).value)
  {
    if |values| == 0 then Err(WrongArity)
    else
      match ListAt(data, key)
      case Err(e) => Err(e)
      case Ok(l) => Ok(data[key := ListOf(Reverse(values) + l)])
  }

  /** RPUSH key v1 v2 ... */
  function RPushCmd(data: map<string, Entry>, key: string, values: seq<string>): (c: Result<map<string, Entry>>)
    ensures |values| == 0 ==> c == Err(WrongArity)
    ensures |values| > 0 && ListAt(data, key).Err? ==> c == Err(WrongType)
    ensures c.Ok? ==> ListAt(c.value, key) == Ok(ListAt(data, key).value + values)
  {
    if |values| == 0 then Err(WrongArity)
    else
      match ListAt(data, key)
      case Err(e) => Err(e)
      case Ok(l) => Ok(data[key := ListOf(l + values)])
  }

  /** LSET key index value: fails on a missing list or an index outside it. */
  function LSetCmd(data: map<string, Entry>, key: string, index: int, value: string): (c: Result<map<string, Entry>>)
    ensures key !in data ==> c == Err(NoSuchKey)
    ensures key in data && !data[key].ListOf? ==> c == Err(WrongType)
    ensures c.Ok? ==> key in data && data[key].ListOf? &&
                      var l := data[key].items;
                      var i := Normalize(index, |l|);
                      0 <= i < |l| && c.value == data[key := ListOf(l[i := value])]
  {
    if key !in data then Err(NoSuchKey)
    else if !data[key].ListOf? then Err(WrongType)
    else
      var l := data[key].items;
      var i := Normalize(index, |l|);
      if 0 <= i < |l| then Ok(data[key := ListOf(l[i := value])]) else Err(IndexOutOfRange)
  }

  /** The keys still carrying a time to live after a command: a key the command removed loses it. */
  function KeepTtl(expiring: set<string>, before: map<string, Entry>, after: map<string, Entry>): (r: set<string>)
    ensures forall k | k in expiring :: k in r <==> (k in after || k !in before)
    ensures r <= expiring
  {
    expiring - (before.Keys - after.Keys)
  }

  /** Two commands in a row that only remove keys: the times to live kept are those of the pair. */
  lemma KeepTtlThen(expiring: set<string>, d0: map<string, Entry>, d1: map<string, Entry>, d2: map<string, Entry>)
    requires d1.Keys <= d0.Keys && d2.Keys <= d1.Keys
    ensures KeepTtl(KeepTtl(expiring, d0, d1), d1, d2) == KeepTtl(expiring, d0, d2)
  {
  }

  /** The reply of LPOP (`left`) or RPOP: `None` when the list is empty or missing. */
  function PopReply(data: map<string, Entry>, key: string, left: bool): (r: Result<Option<string>>)
    ensures ListAt(data, key).Err? <==> r == Err(WrongType)
    ensures r == Ok(None) <==> ListAt(data, key) == Ok([])
    ensures r.Ok? && r.value.Some? ==> r.value.value in ListAt(data, key).value
  {
    match ListAt(data, key)
    case Err(e) => Err(e)
    case Ok(l) => if l == [] then Ok(None) else Ok(Some(if left then l[0] else l[|l| - 1]))
  }

  /** The store after LPOP (`left`) or RPOP. */
  function PopData(data: map<string, Entry>, key: string, left: bool): (d: map<string, Entry>)
    ensures PopReply(data, key, left).Err? || PopReply(data, key, left) == Ok(None) ==> d == data
    ensures ListAt(data, key).Ok? && ListAt(data, key).value != [] ==> ListAt(d, key).Ok? && |ListAt(d, key).value| == |ListAt(data, key).value| - 1
  {
    match ListAt(data, key)
    case Err(_) => data
    case Ok(l) => if l == [] then data else StoreList(data, key, if left then l[1..] else l[..|l| - 1])
  }

  class Redis {
    var data: map<string, Entry>
    var expiring: set<string>     // keys carrying a time to live
    var published: seq<Message>   // every PUBLISH, in order

    constructor()
      ensures data == map[] && expiring == {} && published == []
    {
      data, expiring, published := map[], {}, [];
    }

    /** GET */
    method Get(key: string) returns (r: Result<Option<string>>)
      ensures r == StringAt(data, key)
    {
      r := StringAt(data, key);
    }

    /** SET: overwrites any type and clears the time to live. */
    method Set(key: string, value: string)
      modifies this
      ensures data == old(data)[key := Str(value)]
      ensures expiring == old(expiring) - {key} && published == old(published)
    {
      data := data[key := Str(value)];
      expiring := expiring - {key};
    }

    /** SETEX: refuses a non-positive time. */
    method SetEx(key: string, seconds: int, value: string) returns (r: Outcome)
      modifies this
      ensures r == if seconds > 0 then Pass else Fail(InvalidExpireTime)
      ensures data == if r.Pass? then old(data)[key := Str(value)] else old(data)
      ensures expiring == if r.Pass? then old(expiring) + {key} else old(expiring)
      ensures published == old(published)
    {
      if seconds <= 0 {
        return Fail(InvalidExpireTime);
      }
      data := data[key := Str(value)];
      expiring := expiring + {key};
      r := Pass;
    }

    /** DEL k1 k2 ...: needs at least one key. */
    method Del(keys: seq<string>) returns (r: Outcome)
      modifies this
      ensures r == if |keys| > 0 then Pass else Fail(WrongArity)
      ensures data == if r.Pass? then old(data) - set k | k in keys else old(data)
      ensures expiring == if r.Pass? then old(expiring) - set k | k in keys else old(expiring)
      ensures published == old(published)
    {
      if |keys| == 0 {
        return Fail(WrongArity);
      }
      data := data - set k | k in keys;
      expiring := expiring - set k | k in keys;
      r := Pass;
    }

    /** EXISTS */
    method Exists(key: string) returns (r: bool)
      ensures r <==> key in data
    {
      r := key in data;
    }

    /** EXPIRE: a non-positive time deletes the key at once. */
    method Expire(key: string, seconds: int)
      modifies this
      ensures key !in old(data) ==> data == old(data) && expiring == old(expiring)
      ensures key in old(data) && seconds <= 0 ==> data == old(data) - {key} && expiring == old(expiring) - {key}
      ensures key in old(data) && seconds > 0 ==> data == old(data) && expiring == old(expiring) + {key}
      ensures published == old(published)
    {
      if key in data {
        if seconds <= 0 {
          data := data - {key};
          expiring := expiring - {key};
        } else {
          expiring := expiring + {key};
        }
      }
    }

    /** The time to live of `key` runs out. */
    method Elapse(key: string)
      requires key in expiring
      modifies this
      ensures data == old(data) - {key} && expiring == old(expiring) - {key}
      ensures published == old(published)
    {
      data := data - {key};
      expiring := expiring - {key};
    }

    /** FLUSHDB */
    method FlushDb()
      modifies this
      ensures data == map[] && expiring == {} && published == old(published)
    {
      data, expiring := map[], {};
    }

    /** PUBLISH */
    method Publish(channel: string, payload: string)
      modifies this
      ensures published == old(published) + [Message(channel, payload)]
      ensures data == old(data) && expiring == old(expiring)
    {
      published := published + [Message(channel, payload)];
    }

    /** Runs a collection command: the store takes its result unless it replied with an error. */
    method Run(c: Result<map<string, Entry>>) returns (r: Outcome)
      modifies this
      ensures r == Status(c) && data == Applied(old(data), c)
      ensures expiring == old(expiring) && published == old(published)
    {
      r := Status(c);
      data := Applied(data, c);
    }

    /** Runs a command that may remove its key: an emptied collection goes together with its time to live. */
    method RunRemoving(c: Result<map<string, Entry>>) returns (r: Outcome)
      modifies this
      ensures r == Status(c) && data == Applied(old(data), c)
      ensures expiring == KeepTtl(old(expiring), old(data), data) && published == old(published)
    {
      r := Status(c);
      var before := data;
      data := Applied(data, c);
      expiring := KeepTtl(expiring, before, data);
    }

    method HSet(key: string, field: string, value: string) returns (r: Outcome)
      modifies this
      ensures r == Status(HSetCmd(old(data), key, field, value)) && data == Applied(old(data), HSetCmd(old(data), key, field, value))
      ensures expiring == old(expiring) && published == old(published)
    {
      r := Run(HSetCmd(data, key, field, value));
    }

    /** HGET */
    method HGet(key: string, field: string) returns (r: Result<Option<string>>)
      ensures r == FieldAt(data, key, field)
    {
      r := FieldAt(data, key, field);
    }

    method HDel(key: string, fields: seq<string>) returns (r: Outcome)
      modifies this
      ensures r == Status(HDelCmd(old(data), key, fields)) && data == Applied(old(data), HDelCmd(old(data), key, fields))
      ensures expiring == KeepTtl(old(expiring), old(data), data) && published == old(published)
    {
      r := RunRemoving(HDelCmd(data, key, fields));
    }

    method SAdd(key: string, members: seq<string>) returns (r: Outcome)
      modifies this
      ensures r == Status(SAddCmd(old(data), key, members)) && data == Applied(old(data), SAddCmd(old(data), key, members))
      ensures expiring == old(expiring) && published == old(published)
    {
      r := Run(SAddCmd(data, key, members));
    }

    method SRem(key: string, members: seq<string>) returns (r: Outcome)
      modifies this
      ensures r == Status(SRemCmd(old(data), key, members)) && data == Applied(old(data), SRemCmd(old(data), key, members))
      ensures expiring == KeepTtl(old(expiring), old(data), data) && published == old(published)
    {
      r := RunRemoving(SRemCmd(data, key, members));
    }

    /** SMEMBERS */
    method SMembers(key: string) returns (r: Result<set<string>>)
      ensures r == SetAt(data, key)
    {
      r := SetAt(data, key);
    }

    /** SISMEMBER */
    method SIsMember(key: string, member: string) returns (r: Result<bool>)
      ensures r == match SetAt(data, key)
                   case Err(e) => Err(e)
                   case Ok(s) => Ok(member in s)
    {
      var s := SetAt(data, key);
      if s.Err? {
        return Err(s.error);
      }
      r := Ok(member in s.value);
    }

    /** SCARD */
    method SCard(key: string) returns (r: Result<nat>)
      ensures r == match SetAt(data, key)
                   case Err(e) => Err(e)
                   case Ok(s) => Ok(|s|)
    {
      var s := SetAt(data, key);
      if s.Err? {
        return Err(s.error);
      }
      r := Ok(|s.value|);
    }

    method ZAdd(key: string, rank: nat, member: string) returns (r: Outcome)
      modifies this
      ensures r == Status(ZAddCmd(old(data), key, rank, member)) && data == Applied(old(data), ZAddCmd(old(data), key, rank, member))
      ensures expiring == old(expiring) && published == old(published)
    {
      r := Run(ZAddCmd(data, key, rank, member));
    }

    method ZRem(key: string, members: seq<string>) returns (r: Outcome)
      modifies this
      ensures r == Status(ZRemCmd(old(data), key, members)) && data == Applied(old(data), ZRemCmd(old(data), key, members))
      ensures expiring == KeepTtl(old(expiring), old(data), data) && published == old(published)
    {
      r := RunRemoving(ZRemCmd(data, key, members));
    }

    /** ZRANGE key start stop */
    method ZRange(key: string, start: int, stop: int) returns (r: Result<seq<string>>)
      ensures r == ZRangeAt(data, key, start, stop, false)
    {
      r := ZRangeAt(data, key, start, stop, false);
    }

    /** ZREVRANGE key start stop */
    method ZRevRange(key: string, start: int, stop: int) returns (r: Result<seq<string>>)
      ensures r == ZRangeAt(data, key, start, stop, true)
    {
      r := ZRangeAt(data, key, start, stop, true);
    }

    method LPush(key: string, values: seq<string>) returns (r: Outcome)
      modifies this
      ensures r == Status(LPushCmd(old(data), key, values)) && data == Applied(old(data), LPushCmd(old(data), key, values))
      ensures expiring == old(expiring) && published == old(published)
    {
      r := Run(LPushCmd(data, key, values));
    }

    method RPush(key: string, values: seq<string>) returns (r: Outcome)
      modifies this
      ensures r == Status(RPushCmd(old(data), key, values)) && data == Applied(old(data), RPushCmd(old(data), key, values))
      ensures expiring == old(expiring) && published == old(published)
    {
      r := Run(RPushCmd(data, key, values));
    }

    /** LPOP (`left`) or RPOP */
    method Pop(key: string, left: bool) returns (r: Result<Option<string>>)
      modifies this
      ensures r == PopReply(old(data), key, left) && data == PopData(old(data), key, left)
      ensures expiring == KeepTtl(old(expiring), old(data), data) && published == old(published)
    {
      r := PopReply(data, key, left);
      var before := data;
      data := PopData(data, key, left);
      expiring := KeepTtl(expiring, before, data);
    }

    /** LRANGE key start stop */
    method LRange(key: string, start: int, stop: int) returns (r: Result<seq<string>>)
      ensures r == LRangeAt(data, key, start, stop)
    {
      r := LRangeAt(data, key, start, stop);
    }

    /** LINDEX key index: `None` outside the list. */
    method LIndex(key: string, index: int) returns (r: Result<Option<string>>)
      ensures r == LIndexAt(data, key, index)
    {
      r := LIndexAt(data, key, index);
    }

    method LSet(key: string, index: int, value: string) returns (r: Outcome)
      modifies this
      ensures r == Status(LSetCmd(old(data), key, index, value)) && data == Applied(old(data), LSetCmd(old(data), key, index, value))
      ensures expiring == old(expiring) && published == old(published)
    {
      r := Run(LSetCmd(data, key, index, value));
    }
  }
}
