/**
 * Deleting by prefix in Redis: the SCAN pattern, the mapping of scanned keys back to
 * command keys, and agreement with the in-memory driver.
 */
module PrefixDelete {
  import opened Common
  import MemoryCache

  // ----- Redis glob patterns: `*`, `?`, `[...]` (with `^` and ranges) and backslash. -----

  predicate InRange(lo: char, hi: char, c: char) {
    lo <= c <= hi || hi <= c <= lo
  }

  /** Reads a character class after its `[` (and `^`): is `c` listed, and what follows the `]`. */
  function ReadClass(p: string, c: char): (r: (bool, string))
    ensures |r.1| <= |p|
  {
    if p == [] then (false, [])
    else if p[0] == '\\' && |p| >= 2 then
      var (found, rest) := ReadClass(p[2..], c); (found || p[1] == c, rest)
    else if p[0] == ']' then (false, p[1..])
    else if |p| >= 3 && p[1] == '-' then
      var (found, rest) := ReadClass(p[3..], c); (found || InRange(p[0], p[2], c), rest)
    else
      var (found, rest) := ReadClass(p[1..], c); (found || p[0] == c, rest)
  }

  predicate GlobMatch(p: string, s: string)
    decreases |p| + |s|
  {
    if p == [] then s == []
    else if p[0] == '*' then GlobMatch(p[1..], s) || (s != [] && GlobMatch(p, s[1..]))
    else if s == [] then false
    else if p[0] == '?' then GlobMatch(p[1..], s[1..])
    else if p[0] == '[' then
      var negated := |p| >= 2 && p[1] == '^';
      var (found, rest) := ReadClass(if negated then p[2..] else p[1..], s[0]);
      found != negated && GlobMatch(rest, s[1..])
    else if p[0] == '\\' && |p| >= 2 then p[1] == s[0] && GlobMatch(p[2..], s[1..])
    else p[0] == s[0] && GlobMatch(p[1..], s[1..])
  }

  // ----- prefixScan. -----

  predicate IsGlobMeta(c: char) { c == '*' || c == '?' || c == '[' || c == ']' || c == '\\' }

  function Escape(s: string): (r: string) {
    if s == [] then []
    else (if IsGlobMeta(s[0]) then ['\\', s[0]] else [s[0]]) + Escape(s[1..])
  }

  function ScanPattern(keyPrefix: string, prefix: string): string {
    Escape(keyPrefix + prefix) + "*"
  }

  /** The key to pass to a client that prepends `keyPrefix` itself. */
  function ToCommandKey(keyPrefix: string, prefix: string, stored: string): Option<string> {
    if keyPrefix + prefix <= stored then Some(stored[|keyPrefix|..]) else None
  }

  lemma {:induction false} StarMatchesAll(s: string)
    ensures GlobMatch("*", s)
    decreases |s|
  {
    if s != [] {
      StarMatchesAll(s[1..]);
    }
  }

  /** The escaped pattern matches exactly the strings that start with the text, whatever it contains. */
  lemma {:induction false} EscapedMatchesPrefix(full: string, s: string)
    ensures GlobMatch(Escape(full) + "*", s) <==> full <= s
    decreases |full|
  {
    if full == [] {
      assert Escape(full) + "*" == "*";
      StarMatchesAll(s);
    } else {
      var p := Escape(full) + "*";
      var tail := Escape(full[1..]) + "*";
      if IsGlobMeta(full[0]) {
        assert p == ['\\', full[0]] + tail;
        assert p[2..] == tail;
      } else {
        assert p == [full[0]] + tail;
        assert p[1..] == tail;
      }
      if s != [] {
        EscapedMatchesPrefix(full[1..], s[1..]);
        assert full <= s <==> full[0] == s[0] && full[1..] <= s[1..] by {
          if full[0] == s[0] && full[1..] <= s[1..] {
            assert s == [s[0]] + s[1..] && full == [full[0]] + full[1..];
          }
        }
      }
    }
  }

  lemma ScanPatternMatchesPrefix(keyPrefix: string, prefix: string, stored: string)
    ensures GlobMatch(ScanPattern(keyPrefix, prefix), stored) <==> keyPrefix + prefix <= stored
  {
    EscapedMatchesPrefix(keyPrefix + prefix, stored);
  }

  /** Every key the pattern matches maps to a command key, and the client's prefix gives the stored key back. */
  lemma CommandKeyRoundTrip(keyPrefix: string, prefix: string, stored: string)
    ensures ToCommandKey(keyPrefix, prefix, stored).Some? <==> GlobMatch(ScanPattern(keyPrefix, prefix), stored)
    ensures ToCommandKey(keyPrefix, prefix, stored).Some? ==>
              keyPrefix + ToCommandKey(keyPrefix, prefix, stored).value == stored
  {
    ScanPatternMatchesPrefix(keyPrefix, prefix, stored);
    if keyPrefix + prefix <= stored {
      assert stored[..|keyPrefix|] == (keyPrefix + prefix)[..|keyPrefix|] == keyPrefix;
    }
  }

  /** Text without glob characters matches itself. */
  lemma {:induction false} PlainTextMatchesItself(text: string, p: string, s: string)
    requires forall i :: 0 <= i < |text| ==> !IsGlobMeta(text[i])
    ensures GlobMatch(text + p, text + s) <==> GlobMatch(p, s)
    decreases |text|
  {
    if text == [] {
      assert text + p == p && text + s == s;
    } else {
      assert (text + p)[0] == text[0] && (text + p)[1..] == text[1..] + p;
      assert (text + s)[0] == text[0] && (text + s)[1..] == text[1..] + s;
      PlainTextMatchesItself(text[1..], p, s);
    }
  }

  lemma {:induction false} StarSkips(skipped: string, p: string, s: string)
    requires GlobMatch(p, s)
    ensures GlobMatch("*" + p, skipped + s)
    decreases |skipped|
  {
    assert ("*" + p)[1..] == p;
    if skipped == [] {
      assert skipped + s == s;
    } else {
      assert (skipped + s)[1..] == skipped[1..] + s;
      StarSkips(skipped[1..], p, s);
    }
  }

  /**
   * Why the prefix is escaped: an unescaped star in it, between any texts, would reach every key that
   * holds anything at all in its place, though only keys with the star itself have the prefix.
   */
  lemma UnescapedPatternWidens(before: string, between: string, after: string)
    requires forall i :: 0 <= i < |before| ==> !IsGlobMeta(before[i])
    requires forall i :: 0 <= i < |after| ==> !IsGlobMeta(after[i])
    requires between != [] && between[0] != '*'
    ensures GlobMatch(before + ("*" + (after + "*")), before + (between + (after + "1")))
    ensures !GlobMatch(ScanPattern(before, "*" + after), before + (between + (after + "1")))
  {
    StarMatchesAll("1");
    PlainTextMatchesItself(after, "*", "1");
    StarSkips(between, after + "*", after + "1");
    var key := before + (between + (after + "1"));
    PlainTextMatchesItself(before, "*" + (after + "*"), between + (after + "1"));
    ScanPatternMatchesPrefix(before, "*" + after, key);
    assert (before + ("*" + after))[|before|] == '*' && key[|before|] == between[0];
  }

  // ----- The drivers. -----

  /** SCAN returns only stored keys that match, and every matching key at least once. */
  ghost predicate ScanOf(stored: set<string>, pattern: string, batches: seq<seq<string>>) {
    && (forall b, i :: 0 <= b < |batches| && 0 <= i < |batches[b]| ==>
          batches[b][i] in stored && GlobMatch(pattern, batches[b][i]))
    && (forall k :: k in stored && GlobMatch(pattern, k) ==>
          exists b, i :: 0 <= b < |batches| && 0 <= i < |batches[b]| && batches[b][i] == k)
  }

  /** How many keys SCAN returned, those it returned twice counted twice. */
  function Scanned(batches: seq<seq<string>>): nat {
    if batches == [] then 0 else Scanned(batches[..|batches| - 1]) + |batches[|batches| - 1]|
  }

  predicate Collected(keyPrefix: string, pipeline: seq<string>, k: string) {
    exists i :: 0 <= i < |pipeline| && keyPrefix + pipeline[i] == k
  }

  class RedisCache<V> {
    /** What Redis stores, by full key. */
    var entries: map<string, V>
    const keyPrefix: string

    constructor (keyPrefix: string)
      ensures this.keyPrefix == keyPrefix && entries == map[]
    {
      this.keyPrefix := keyPrefix;
      entries := map[];
    }

    /** The client's pipeline of DELs: each command key gets the client prefix. */
    method Exec(pipeline: seq<string>)
      modifies this
      ensures entries == map k | k in old(entries) && !Collected(keyPrefix, pipeline, k) :: old(entries)[k]
    {
      var i := 0;
      while i < |pipeline|
        invariant 0 <= i <= |pipeline|
        invariant entries == map k | k in old(entries) && !Collected(keyPrefix, pipeline[..i], k) :: old(entries)[k]
      {
        entries := entries - {keyPrefix + pipeline[i]};
        assert pipeline[..i + 1] == pipeline[..i] + [pipeline[i]];
        forall k ensures Collected(keyPrefix, pipeline[..i + 1], k) <==> Collected(keyPrefix, pipeline[..i], k) || k == keyPrefix + pipeline[i] {
          if Collected(keyPrefix, pipeline[..i], k) {
            var j :| 0 <= j < i && keyPrefix + pipeline[..i][j] == k;
            assert pipeline[..i + 1][j] == pipeline[..i][j];
          }
          assert pipeline[..i + 1][i] == pipeline[i];
        }
        i := i + 1;
      }
      assert pipeline[..i] == pipeline;
    }

    method Collect(prefix: string, batches: seq<seq<string>>) returns (pipeline: seq<string>)
      ensures forall k :: keyPrefix + prefix <= k ==>
                (Collected(keyPrefix, pipeline, k) <==>
                 exists b, i :: 0 <= b < |batches| && 0 <= i < |batches[b]| && batches[b][i] == k)
      ensures forall k :: Collected(keyPrefix, pipeline, k) ==> keyPrefix + prefix <= k
      ensures (forall b, i :: 0 <= b < |batches| && 0 <= i < |batches[b]| ==> keyPrefix + prefix <= batches[b][i])
              ==> |pipeline| == Scanned(batches)
    {
      pipeline := [];
      ghost var seen: set<string> := {};
      var b := 0;
      while b < |batches|
        invariant 0 <= b <= |batches|
        invariant forall k :: Collected(keyPrefix, pipeline, k) <==> k in seen && keyPrefix + prefix <= k
        invariant forall k :: k in seen <==> exists d, i :: 0 <= d < b && 0 <= i < |batches[d]| && batches[d][i] == k
        invariant (forall d, i :: 0 <= d < |batches| && 0 <= i < |batches[d]| ==> keyPrefix + prefix <= batches[d][i])
                  ==> |pipeline| == Scanned(batches[..b])
      {
        var n := 0;
        ghost var before := seen;
        while n < |batches[b]|
          invariant 0 <= n <= |batches[b]|
          invariant forall k :: Collected(keyPrefix, pipeline, k) <==> k in seen && keyPrefix + prefix <= k
          invariant (forall d, i :: 0 <= d < |batches| && 0 <= i < |batches[d]| ==> keyPrefix + prefix <= batches[d][i])
                    ==> |pipeline| == Scanned(batches[..b]) + n
          invariant seen == before + set i | 0 <= i < n :: batches[b][i]
        {
          var stored := batches[b][n];
          var key := ToCommandKey(keyPrefix, prefix, stored);
          CommandKeyRoundTrip(keyPrefix, prefix, stored);
          seen := seen + {stored};
          if key.Some? {
            CollectedSnoc(keyPrefix, pipeline, key.value);
            pipeline := pipeline + [key.value];
          }
          n := n + 1;
        }
        forall k ensures k in seen <==> exists d, i :: 0 <= d < b + 1 && 0 <= i < |batches[d]| && batches[d][i] == k {
          if k in seen && k !in before {
            var i :| 0 <= i < |batches[b]| && batches[b][i] == k;
          }
        }
        assert batches[..b + 1][..b] == batches[..b] && batches[..b + 1][b] == batches[b];
        b := b + 1;
      }
      assert batches[..b] == batches;
    }

    method DelByPrefix(prefix: string, batches: seq<seq<string>>) returns (r: MemoryCache.Result<nat>)
      requires ScanOf(entries.Keys, ScanPattern(keyPrefix, prefix), batches)
      modifies this
      ensures prefix == "" ==> r.Threw? && entries == old(entries)
      ensures prefix != "" ==> r == MemoryCache.Returned(Scanned(batches))
      ensures prefix != "" ==> entries == map k | k in old(entries) && !(keyPrefix + prefix <= k) :: old(entries)[k]
    {
      if prefix == "" {
        return MemoryCache.Threw("cache.delByPrefix requires a non-empty prefix");
      }
      var pipeline := Collect(prefix, batches);
      forall k | k in entries ensures Collected(keyPrefix, pipeline, k) <==> keyPrefix + prefix <= k {
        ScanPatternMatchesPrefix(keyPrefix, prefix, k);
      }
      forall b, i | 0 <= b < |batches| && 0 <= i < |batches[b]| ensures keyPrefix + prefix <= batches[b][i] {
        ScanPatternMatchesPrefix(keyPrefix, prefix, batches[b][i]);
      }
      if |pipeline| > 0 {
        Exec(pipeline);
      }
      r := MemoryCache.Returned(|pipeline|);
    }
  }

  lemma CollectedSnoc(keyPrefix: string, pipeline: seq<string>, key: string)
    ensures forall k :: Collected(keyPrefix, pipeline + [key], k) <==> Collected(keyPrefix, pipeline, k) || k == keyPrefix + key
  {
    forall k ensures Collected(keyPrefix, pipeline + [key], k) <==> Collected(keyPrefix, pipeline, k) || k == keyPrefix + key {
      if Collected(keyPrefix, pipeline, k) {
        var j :| 0 <= j < |pipeline| && keyPrefix + pipeline[j] == k;
        assert (pipeline + [key])[j] == pipeline[j];
      }
      assert (pipeline + [key])[|pipeline|] == key;
    }
  }

  /** Both drivers, holding the same keys under the same prefix, keep the same keys. */
  method DriversAgree<V>(memory: MemoryCache.MemoryCache, redis: RedisCache<V>, prefix: string, batches: seq<seq<string>>)
    requires memory.keyPrefix == redis.keyPrefix && memory.store.Keys == redis.entries.Keys
    requires ScanOf(redis.entries.Keys, ScanPattern(redis.keyPrefix, prefix), batches)
    modifies memory, redis
    ensures memory.store.Keys == redis.entries.Keys
    ensures prefix != "" ==> forall k :: k in memory.store.Keys <==> k in old(memory.store.Keys) && !(memory.keyPrefix + prefix <= k)
  {
    var m := memory.DelByPrefix(prefix);
    var r := redis.DelByPrefix(prefix, batches);
  }
}
