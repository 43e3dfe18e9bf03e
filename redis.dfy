/** The key-value store as the repository sees it: one keyspace mapping key
    names to either a string or a hash (field -> string), the replies of the
    commands the repository issues, and pipelines of write commands.

    A round trip to the store can fail at any time (network, server);
    `RoundTrip` makes that choice nondeterministically, so every contract that
    follows holds whichever round trips fail. */
module Redis {
  import opened Common
  import Decimal

  datatype Value = Str(s: string) | Hash(fields: map<string, string>)

  type Keyspace = map<string, Value>

  /** Reply to a single-value read (GET, HGET): nil, a value, or an error. */
  datatype Reply = Nil | Val(s: string) | Failed(e: Error)

  /** One round trip to the store; `ok` is false when it failed. */
  method RoundTrip() returns (ok: bool)
  {
    ok := *;
  }

  function Get(ks: Keyspace, key: string): Reply
  {
    if key !in ks then Nil
    else match ks[key]
      case Str(s) => Val(s)
      case Hash(_) => Failed(WrongType)
  }

  function HGet(ks: Keyspace, key: string, field: string): (r: Reply)
    ensures !HashLike(ks, key) <==> r == Failed(WrongType)
    ensures HashLike(ks, key) ==> r == if field in Fields(ks, key) then Val(Fields(ks, key)[field]) else Nil
  {
    if key !in ks then Nil
    else match ks[key]
      case Str(_) => Failed(WrongType)
      case Hash(m) => if field in m then Val(m[field]) else Nil
  }

  /** HGETALL: an absent key reads as the empty hash. */
  function HGetAll(ks: Keyspace, key: string): (r: Result<map<string, string>>)
    ensures r.Err? <==> !HashLike(ks, key)
    ensures r.Err? ==> r.error == WrongType
    ensures r.Ok? ==> r.value == Fields(ks, key)
  {
    if key !in ks then Ok(map[])
    else match ks[key]
      case Str(_) => Err(WrongType)
      case Hash(m) => Ok(m)
  }

  /** The fields of `key` when it is a hash, and no fields otherwise. */
  function Fields(ks: Keyspace, key: string): map<string, string>
  {
    if key in ks && ks[key].Hash? then ks[key].fields else map[]
  }

  /** `key` can take HSET: it is absent or already a hash. */
  predicate HashLike(ks: Keyspace, key: string)
  {
    key !in ks || ks[key].Hash?
  }

  predicate HasPrefix(s: string, prefix: string)
  {
    |prefix| <= |s| && s[..|prefix|] == prefix
  }

  /** The MATCH patterns the repository uses are a literal prefix followed by
      one `*`; such a pattern matches exactly the keys with that prefix. */
  predicate IsPrefixPattern(pattern: string)
  {
    |pattern| > 0 && pattern[|pattern| - 1] == '*' && '*' !in pattern[..|pattern| - 1]
  }

  function PatternPrefix(pattern: string): string
    requires IsPrefixPattern(pattern)
  {
    pattern[..|pattern| - 1]
  }

  /** The keys of a snapshot that a full SCAN ... MATCH pattern returns. */
  function MatchingKeys(ks: Keyspace, pattern: string): (found: set<string>)
    requires IsPrefixPattern(pattern)
    ensures forall k :: k in found <==> k in ks && HasPrefix(k, PatternPrefix(pattern))
  {
    set k | k in ks && HasPrefix(k, PatternPrefix(pattern))
  }

  /** SETNX: sets `key` only when it is absent; true when it set it. */
  function SetNX(ks: Keyspace, key: string, value: string): (r: (Keyspace, bool))
    ensures r.1 <==> key !in ks
    ensures key in r.0 && (key in ks ==> r.0 == ks)
    ensures key !in ks ==> r.0 == ks[key := Str(value)]
  {
    if key in ks then (ks, false) else (ks[key := Str(value)], true)
  }

  /** HINCRBY key field delta: the field (0 when absent) must hold a
      canonical integer, and the sum must stay in the signed 64-bit range. */
  function HIncrBy(ks: Keyspace, key: string, field: string, delta: int): Result<(Keyspace, int)>
  {
    var m := Fields(ks, key);
    if !HashLike(ks, key) then Err(WrongType)
    else
      var current := if field in m then Decimal.ParseCanonical(m[field]) else Some(0);
      if current.None? then Err(NotAnInteger)
      else if !Decimal.InInt64(current.value + delta) then Err(IncrementOverflow)
      else
        var n := current.value + delta;
        Ok((ks[key := Hash(m[field := Decimal.FormatInt(n)])], n))
  }

  /** Write commands that the repository sends, alone or queued in a pipeline. */
  datatype Command =
    | Set(key: string, value: string)
    | HSet(key: string, field: string, value: string)
    | Del(key: string)
    | HDel(key: string, field: string)

  /** One command: the new keyspace and the command's error, if any.
      SET overwrites a value of any type; the store drops a hash whose last
      field is deleted. */
  function Step(ks: Keyspace, c: Command): (Keyspace, Option<Error>)
  {
    match c
    case Set(k, v) => (ks[k := Str(v)], None)
    case HSet(k, f, v) =>
      if !HashLike(ks, k) then (ks, Some(WrongType))
      else (ks[k := Hash(Fields(ks, k)[f := v])], None)
    case Del(k) => (ks - {k}, None)
    case HDel(k, f) =>
      if !HashLike(ks, k) then (ks, Some(WrongType))
      else if Fields(ks, k) - {f} == map[] then (ks - {k}, None)
      else (ks[k := Hash(Fields(ks, k) - {f})], None)
  }

  /** The keyspace after a sequence of commands, applied in order. */
  function Run(ks: Keyspace, cmds: seq<Command>): Keyspace
  {
    if cmds == [] then ks else Step(Run(ks, cmds[..|cmds| - 1]), cmds[|cmds| - 1]).0
  }

  /** The first error among the replies of a sequence of commands. */
  function FirstError(ks: Keyspace, cmds: seq<Command>): Option<Error>
  {
    if cmds == [] then None
    else if FirstError(ks, cmds[..|cmds| - 1]).Some? then FirstError(ks, cmds[..|cmds| - 1])
    else Step(Run(ks, cmds[..|cmds| - 1]), cmds[|cmds| - 1]).1
  }

  /** The store the client talks to. Every method is one round trip, which
      may fail; a write whose round trip failed may or may not have taken
      effect, since the reply can be lost after the server applied it. */
  class Store {
    var keys: Keyspace

    constructor(ks: Keyspace)
      ensures keys == ks
    {
      keys := ks;
    }

    /** A read round trip; the reply is computed from `keys` by the caller. */
    method Read() returns (ok: bool)
    {
      ok := RoundTrip();
    }

    /** A single write whose effect on the keyspace is `next`. */
    method Write(next: Keyspace) returns (ok: bool)
      modifies this
      ensures ok ==> keys == next
      ensures !ok ==> keys == old(keys) || keys == next
    {
      ok := RoundTrip();
      var applied: bool := *;
      if ok || applied {
        keys := next;
      }
    }

    /** Sends a pipeline. An empty pipeline makes no round trip. When the
        round trip fails the server may have applied any prefix of the
        commands; when it succeeds all are applied and the first command
        error is reported. `applied` says how many commands took effect and
        `lost` whether the round trip failed. */
    method Exec(cmds: seq<Command>) returns (r: Result<()>, ghost applied: nat, ghost lost: bool)
      modifies this
      ensures applied <= |cmds| && keys == Run(old(keys), cmds[..applied])
      ensures lost ==> cmds != [] && r == Err(StoreFailure)
      ensures !lost ==> applied == |cmds| &&
                        r == (if FirstError(old(keys), cmds).Some? then Err(FirstError(old(keys), cmds).value) else Ok(()))
    {
      if cmds == [] {
        assert cmds[..0] == cmds;
        return Ok(()), 0, false;
      }
      var ok := RoundTrip();
      if !ok {
        var n :| 0 <= n <= |cmds|;
        keys := Run(keys, cmds[..n]);
        return Err(StoreFailure), n, true;
      }
      assert cmds[..|cmds|] == cmds;
      var e := FirstError(keys, cmds);
      keys := Run(keys, cmds);
      r := if e.Some? then Err(e.value) else Ok(());
      applied, lost := |cmds|, false;
    }
  }

  /** Commands only touch the keys they name. */
  function KeysOf(cmds: seq<Command>): set<string>
  {
    set i | 0 <= i < |cmds| :: cmds[i].key
  }

  lemma {:induction false} RunTouchesOnlyNamedKeys(ks: Keyspace, cmds: seq<Command>, k: string)
    requires k !in KeysOf(cmds)
    ensures (k in Run(ks, cmds) <==> k in ks)
    ensures k in ks ==> Run(ks, cmds)[k] == ks[k]
  {
    if cmds != [] {
      var init := cmds[..|cmds| - 1];
      assert KeysOf(init) <= KeysOf(cmds) by {
        forall x | x in KeysOf(init) ensures x in KeysOf(cmds) {
          var i :| 0 <= i < |init| && init[i].key == x;
          assert cmds[i] == init[i];
        }
      }
      assert cmds[|cmds| - 1].key in KeysOf(cmds);
      RunTouchesOnlyNamedKeys(ks, init, k);
    }
  }

  lemma RunPrefixKeys(cmds: seq<Command>, n: nat)
    requires n <= |cmds|
    ensures KeysOf(cmds[..n]) <= KeysOf(cmds)
  {
    forall x | x in KeysOf(cmds[..n]) ensures x in KeysOf(cmds) {
      var i :| 0 <= i < n && cmds[..n][i].key == x;
      assert cmds[i].key == x;
    }
  }

  /** DEL commands remove exactly the keys they name. */
  lemma {:induction false} RunDels(ks: Keyspace, cmds: seq<Command>)
    requires forall i :: 0 <= i < |cmds| ==> cmds[i].Del?
    ensures Run(ks, cmds) == ks - KeysOf(cmds)
  {
    if cmds != [] {
      var init := cmds[..|cmds| - 1];
      RunDels(ks, init);
      assert KeysOf(cmds) == KeysOf(init) + {cmds[|cmds| - 1].key} by {
        forall x | x in KeysOf(cmds) ensures x in KeysOf(init) + {cmds[|cmds| - 1].key} {
          var i :| 0 <= i < |cmds| && cmds[i].key == x;
          if i < |cmds| - 1 { assert init[i] == cmds[i]; }
        }
        RunPrefixKeys(cmds, |cmds| - 1);
      }
    } else {
      assert KeysOf(cmds) == {};
    }
  }

  /** The fields named by the HDEL commands of a sequence. */
  function FieldsOf(cmds: seq<Command>): set<string>
  {
    set i | 0 <= i < |cmds| && cmds[i].HDel? :: cmds[i].field
  }

  /** The keyspace after deleting `fields` from the hash `key`: the hash is
      dropped when no field remains. */
  function WithoutFields(ks: Keyspace, key: string, fields: set<string>): Keyspace
  {
    var kept := Fields(ks, key) - fields;
    if kept == map[] then ks - {key} else ks[key := Hash(kept)]
  }

  /** A non-empty run of HDELs on one hash deletes exactly the fields they
      name. */
  lemma {:induction false} RunHDels(ks: Keyspace, cmds: seq<Command>, key: string)
    requires cmds != [] && HashLike(ks, key)
    requires forall i :: 0 <= i < |cmds| ==> cmds[i].HDel? && cmds[i].key == key
    ensures Run(ks, cmds) == WithoutFields(ks, key, FieldsOf(cmds))
  {
    var init, c := cmds[..|cmds| - 1], cmds[|cmds| - 1];
    assert FieldsOf(cmds) == FieldsOf(init) + {c.field} by {
      forall x | x in FieldsOf(cmds) ensures x in FieldsOf(init) + {c.field} {
        var i :| 0 <= i < |cmds| && cmds[i].HDel? && cmds[i].field == x;
        if i < |cmds| - 1 { assert init[i] == cmds[i]; }
      }
      forall x | x in FieldsOf(init) ensures x in FieldsOf(cmds) {
        var i :| 0 <= i < |init| && init[i].HDel? && init[i].field == x;
        assert cmds[i] == init[i];
      }
    }
    if init == [] {
      assert Run(ks, init) == ks;
      assert FieldsOf(init) == {};
      assert FieldsOf(cmds) == {c.field};
      assert Run(ks, cmds) == Step(ks, c).0;
    } else {
      RunHDels(ks, init, key);
      var r := Run(ks, init);
      var kept0 := Fields(ks, key) - FieldsOf(init);
      assert Fields(r, key) == kept0;
      assert Fields(r, key) - {c.field} == Fields(ks, key) - FieldsOf(cmds);
    }
  }

  /** DEL never replies with an error. */
  lemma {:induction false} RunDelsNoError(ks: Keyspace, cmds: seq<Command>)
    requires forall i :: 0 <= i < |cmds| ==> cmds[i].Del?
    ensures FirstError(ks, cmds) == None
  {
    if cmds != [] {
      RunDelsNoError(ks, cmds[..|cmds| - 1]);
    }
  }

  /** HDELs on a key that holds a hash (or nothing) reply without error. */
  lemma {:induction false} RunHDelsNoError(ks: Keyspace, cmds: seq<Command>, key: string)
    requires HashLike(ks, key)
    requires forall i :: 0 <= i < |cmds| ==> cmds[i].HDel? && cmds[i].key == key
    ensures FirstError(ks, cmds) == None && HashLike(Run(ks, cmds), key)
  {
    if cmds != [] {
      RunHDelsNoError(ks, cmds[..|cmds| - 1], key);
    }
  }

  lemma FieldsOfAppend(cmds: seq<Command>, c: Command)
    ensures FieldsOf(cmds + [c]) == FieldsOf(cmds) + (if c.HDel? then {c.field} else {})
  {
    var all := cmds + [c];
    forall x | x in FieldsOf(all) ensures x in FieldsOf(cmds) + (if c.HDel? then {c.field} else {}) {
      var i :| 0 <= i < |all| && all[i].HDel? && all[i].field == x;
      if i < |cmds| { assert all[i] == cmds[i]; }
    }
    forall x | x in FieldsOf(cmds) ensures x in FieldsOf(all) {
      var i :| 0 <= i < |cmds| && cmds[i].HDel? && cmds[i].field == x;
      assert all[i] == cmds[i];
    }
    assert all[|cmds|] == c;
  }

  lemma FieldsOfPrefix(cmds: seq<Command>, n: nat)
    requires n <= |cmds|
    ensures FieldsOf(cmds[..n]) <= FieldsOf(cmds)
  {
    forall x | x in FieldsOf(cmds[..n]) ensures x in FieldsOf(cmds) {
      var i :| 0 <= i < n && cmds[..n][i].HDel? && cmds[..n][i].field == x;
      assert cmds[i] == cmds[..n][i];
    }
  }

  lemma KeysOfAppend(cmds: seq<Command>, c: Command)
    ensures KeysOf(cmds + [c]) == KeysOf(cmds) + {c.key}
  {
    var all := cmds + [c];
    forall x | x in KeysOf(all) ensures x in KeysOf(cmds) + {c.key} {
      var i :| 0 <= i < |all| && all[i].key == x;
      if i < |cmds| { assert all[i] == cmds[i]; }
    }
    forall x | x in KeysOf(cmds) ensures x in KeysOf(all) {
      var i :| 0 <= i < |cmds| && cmds[i].key == x;
      assert all[i] == cmds[i];
    }
    assert all[|cmds|] == c;
  }

  lemma KeysOfEmpty(cmds: seq<Command>)
    ensures KeysOf(cmds) == {} <==> cmds == []
  {
    if cmds != [] {
      assert cmds[0].key in KeysOf(cmds);
    }
  }

  lemma FieldsOfEmpty(cmds: seq<Command>)
    requires forall i :: 0 <= i < |cmds| ==> cmds[i].HDel?
    ensures FieldsOf(cmds) == {} <==> cmds == []
  {
    if cmds != [] {
      assert cmds[0].field in FieldsOf(cmds);
    }
  }
}
