/** The module shard of an identity, as the Python writer computes it and as the C reader checks
it on UTF-8 bytes. */
module Shards {
  import opened Text
  import opened Model

  const DOT := '.'
  const SLASH := '/'

  /** _key_path */
  function Shard(tree: Tree, key: Key): string {
    var identity := if key == [] then "" else key[0];
    if tree == Coverage then
      var head := Split(identity, SLASH)[0];
      if head == "" then "." else head
    else
      Join(Take(Split(identity, DOT), 3), DOT)
  }

  /** graph_shard_matches; a C string is its bytes before the NUL. */
  method GraphShardMatches(identity: Bytes, shard: Bytes) returns (matches: bool)
    ensures matches <==> shard == Before(identity, DOT as nat, 3)
  {
    hide Before;
    var cursor, dots := 0, 0;
    while cursor < |identity| && dots < 3
      invariant cursor <= |identity| && dots <= 3
      invariant dots < 3 ==> Scanned(identity, DOT as nat, 3, cursor, dots)
      invariant dots == 3 ==> 0 < cursor && Before(identity, DOT as nat, 3) == identity[..cursor - 1]
    {
      ScanStep(identity, DOT as nat, 3, cursor, dots);
      if identity[cursor] == DOT as nat {
        dots := dots + 1;
      }
      cursor := cursor + 1;
    }
    if dots < 3 {
      ScanEnd(identity, DOT as nat, 3, dots);
    }
    var length := if dots == 3 then cursor - 1 else cursor;
    matches := |shard| == length && identity[..length] == shard;
  }

  /** coverage_shard_matches */
  method CoverageShardMatches(path: Bytes, shard: Bytes) returns (matches: bool)
    ensures matches <==> shard == CoverageShardBytes(path)
  {
    hide Before;
    var length := 0;
    while length < |path| && path[length] != SLASH as nat
      invariant length <= |path|
      invariant Scanned(path, SLASH as nat, 1, length, 0)
    {
      ScanStep(path, SLASH as nat, 1, length, 0);
      length := length + 1;
    }
    if length < |path| {
      ScanStep(path, SLASH as nat, 1, length, 0);
    } else {
      ScanEnd(path, SLASH as nat, 1, 0);
    }
    if length == 0 {
      matches := shard == [DOT as nat];
    } else {
      matches := |shard| == length && path[..length] == shard;
    }
  }

  /** After `cursor` bytes holding `found` separators, the n-th separator is still ahead. */
  ghost predicate Scanned(s: Bytes, separator: nat, n: nat, cursor: nat, found: nat)
    requires found < n && cursor <= |s|
  {
    Before(s, separator, n) == s[..cursor] + Before(s[cursor..], separator, n - found)
  }

  lemma ScanStep(s: Bytes, separator: nat, n: nat, cursor: nat, found: nat)
    requires found < n && cursor < |s| && Scanned(s, separator, n, cursor, found)
    ensures s[cursor] != separator ==> Scanned(s, separator, n, cursor + 1, found)
    ensures s[cursor] == separator && found + 1 < n ==> Scanned(s, separator, n, cursor + 1, found + 1)
    ensures s[cursor] == separator && found + 1 == n ==> Before(s, separator, n) == s[..cursor]
  {
    hide Before;
    var rest, m := s[cursor..], n - found;
    BeforeStep(rest, separator, m);
    assert rest[1..] == s[cursor + 1..];
    assert s[..cursor + 1] == s[..cursor] + [s[cursor]];
    if s[cursor] != separator {
      Reassociate(s[..cursor], [s[cursor]], Before(rest[1..], separator, m));
    } else if m > 1 {
      Reassociate(s[..cursor], [s[cursor]], Before(rest[1..], separator, m - 1));
    }
  }

  lemma BeforeStep(s: Bytes, separator: nat, n: nat)
    requires s != [] && n > 0
    ensures s[0] != separator ==> Before(s, separator, n) == [s[0]] + Before(s[1..], separator, n)
    ensures s[0] == separator && n > 1 ==> Before(s, separator, n) == [s[0]] + Before(s[1..], separator, n - 1)
    ensures s[0] == separator && n == 1 ==> Before(s, separator, n) == []
  {
  }

  lemma Reassociate(a: Bytes, b: Bytes, c: Bytes)
    ensures a + (b + c) == (a + b) + c
  {
  }

  lemma ScanEnd(s: Bytes, separator: nat, n: nat, found: nat)
    requires found < n && Scanned(s, separator, n, |s|, found)
    ensures Before(s, separator, n) == s
  {
  }

  function CoverageShardBytes(path: Bytes): Bytes {
    var head := Before(path, SLASH as nat, 1);
    if head == [] then [DOT as nat] else head
  }

  lemma {:induction false} SplitHead(s: string, separator: char)
    ensures Split(s, separator)[0] == Before(s, separator, 1)
  {
    if s != [] && s[0] != separator {
      SplitHead(s[1..], separator);
    }
  }

  /** The C test on encoded strings accepts exactly the shard that Python computed. */
  lemma GraphShardAgrees(tree: Tree, key: Key, shard: string)
    requires tree != Coverage && key != []
    ensures Encode(shard) == Before(Encode(key[0]), DOT as nat, 3) <==> shard == Shard(tree, key)
  {
    JoinTakeSplit(key[0], DOT, 3);
    EncodeBefore(key[0], DOT, 3);
    if Encode(shard) == Encode(Shard(tree, key)) {
      EncodeInjective(shard, Shard(tree, key));
    }
  }

  lemma CoverageShardAgrees(key: Key, shard: string)
    requires key != []
    ensures Encode(shard) == CoverageShardBytes(Encode(key[0])) <==> shard == Shard(Coverage, key)
  {
    SplitHead(key[0], SLASH);
    EncodeBefore(key[0], SLASH, 1);
    var head := Before(key[0], SLASH, 1);
    assert head == "" <==> Encode(head) == [];
    assert Encode(".") == [DOT as nat] by {
      assert Encode(".") == EncodeChar('.') + Encode("");
    }
    if Encode(shard) == Encode(Shard(Coverage, key)) {
      EncodeInjective(shard, Shard(Coverage, key));
    }
  }
}
