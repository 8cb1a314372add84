/** Following checkpoints back to the first commit, or to an embedded index. */
module Chain {
  import opened Wrappers
  import opened Text
  import opened Model
  import opened Wire
  import opened Trailers

  function Reverse<T>(s: seq<T>): seq<T> {
    if s == [] then [] else Reverse(s[1..]) + [s[0]]
  }

  function Below(n: nat): (offsets: set<nat>)
    ensures forall x: nat :: x in offsets <==> x < n
  {
    if n == 0 then {} else Below(n - 1) + {n - 1}
  }

  predicate HasFooterMark(file: Bytes, offset: nat) {
    Read(file, offset + 8, 8) == FooterMagic()
  }

  /** The manifests, oldest first, that the chain from a trailer reaches. */
  function Walk(codec: Codec, file: Bytes, offset: nat, seen: set<nat>): Result<seq<Manifest>>
    decreases Below(|file|) - seen
  {
    if offset == 0 then Ok([])
    else if offset in seen then Failure("checkpoint cycle detected")
    else if HasFooterMark(file, offset) then
      match ReadIndex(codec, file, offset)
      case None => Failure("invalid archive index")
      case Some((_, commits)) => Ok(commits)
    else
      match ReadCheckpoint(codec, file, offset)
      case None => Failure("invalid checkpoint")
      case Some(checkpoint) =>
        match Walk(codec, file, checkpoint.previous, seen + {offset})
        case Failure(reason) => Failure(reason)
        case Ok(older) => Ok(older + [checkpoint.manifest])
  }

  datatype Loaded = Loaded(commits: seq<Manifest>, durable: nat, latest: nat)

  /** What following the chain from the last checkpoint gives. */
  ghost predicate ChainLoads(codec: Codec, file: Bytes, last: Option<nat>, r: Result<Option<Loaded>>) {
    && IsLast(codec, file, CheckpointTrailer, last)
    && match last
       case None => r == Ok(None)
       case Some(latest) =>
         match Walk(codec, file, latest, {})
         case Failure(reason) => r == Failure(reason)
         case Ok(commits) => r == Ok(Some(Loaded(commits,
           if HasFooterMark(file, latest) then 0 else latest + CHECKPOINT_SIZE, latest)))
  }

  /** _load_checkpoint_chain_reader */
  method LoadChain(codec: Codec, file: Bytes, chunk: nat) returns (r: Result<Option<Loaded>>)
    requires chunk > 7
    ensures exists last :: ChainLoads(codec, file, last, r)
  {
    var latest := FindLast(codec, file, CheckpointTrailer, chunk);
    if latest.None? {
      r := Ok(None);
      assert ChainLoads(codec, file, None, r);
    } else {
      r := FollowChain(codec, file, latest.value);
      assert ChainLoads(codec, file, latest, r);
    }
  }

  /** The loop of _load_checkpoint_chain_reader. */
  method FollowChain(codec: Codec, file: Bytes, latest: nat) returns (r: Result<Option<Loaded>>)
    requires IsLast(codec, file, CheckpointTrailer, Some(latest))
    ensures
      match Walk(codec, file, latest, {})
      case Failure(reason) => r == Failure(reason)
      case Ok(commits) => r == Ok(Some(Loaded(commits,
        if HasFooterMark(file, latest) then 0 else latest + CHECKPOINT_SIZE, latest)))
  {
    hide IsLast, ReadCheckpoint, ReadIndex, HasFooterMark;
    LatestIsPositive(codec, file, Some(latest));
    var manifests: seq<Manifest> := [];
    var offset: nat := latest;
    var durable: nat := 0;
    var seen: set<nat> := {};
    WalkStart(codec, file, offset);
    while offset != 0
      invariant seen == {} ==> durable == 0 && offset == latest && manifests == []
      invariant seen != {} ==> durable == latest + CHECKPOINT_SIZE && !HasFooterMark(file, latest)
      invariant WalksOn(codec, file, latest, offset, seen, manifests)
      decreases Below(|file|) - seen
    {
      if offset in seen {
        return Failure("checkpoint cycle detected");
      }
      if HasFooterMark(file, offset) {
        var index := ReadIndex(codec, file, offset);
        if index.None? {
          return Failure("invalid archive index");
        }
        return Ok(Some(Loaded(index.value.1 + Reverse(manifests), durable, latest)));
      }
      var checkpoint := ReadCheckpoint(codec, file, offset);
      if checkpoint.None? {
        return Failure("invalid checkpoint");
      }
      if durable == 0 {
        durable := checkpoint.value.end;
      }
      CheckpointEnd(codec, file, offset);
      WalkStep(codec, file, latest, offset, seen, manifests);
      assert seen == {} ==> offset == latest;
      seen := seen + {offset};
      manifests := manifests + [checkpoint.value.manifest];
      offset := checkpoint.value.previous;
    }
    r := Ok(Some(Loaded(Reverse(manifests), durable, latest)));
    assert [] + Reverse(manifests) == Reverse(manifests);
  }

  lemma LatestIsPositive(codec: Codec, file: Bytes, last: Option<nat>)
    requires IsLast(codec, file, CheckpointTrailer, last) && last.Some?
    ensures last.value >= MAGIC_SIZE
  {
  }

  lemma CheckpointEnd(codec: Codec, file: Bytes, offset: nat)
    ensures var c := ReadCheckpoint(codec, file, offset);
      c.Some? ==> c.value.end == offset + CHECKPOINT_SIZE && offset in Below(|file|)
  {
  }

  /** The walk from `start` is the walk from `offset`, followed by the manifests collected so far. */
  ghost predicate WalksOn(codec: Codec, file: Bytes, start: nat, offset: nat, seen: set<nat>, manifests: seq<Manifest>) {
    Walk(codec, file, start, {}) ==
      match Walk(codec, file, offset, seen)
      case Failure(reason) => Failure(reason)
      case Ok(older) => Ok(older + Reverse(manifests))
  }

  lemma WalkStart(codec: Codec, file: Bytes, start: nat)
    ensures WalksOn(codec, file, start, start, {}, [])
  {
    hide Walk;
    match Walk(codec, file, start, {})
    case Failure(_) =>
    case Ok(older) => assert older + [] == older;
  }

  lemma {:induction false} ReverseAppend<T>(s: seq<T>, x: T)
    ensures Reverse(s + [x]) == [x] + Reverse(s)
  {
    if s != [] {
      assert (s + [x])[1..] == s[1..] + [x];
      ReverseAppend(s[1..], x);
    }
  }

  lemma WalkStep(codec: Codec, file: Bytes, start: nat, offset: nat, seen: set<nat>, manifests: seq<Manifest>)
    requires WalksOn(codec, file, start, offset, seen, manifests)
    requires offset != 0 && offset !in seen && !HasFooterMark(file, offset)
    requires ReadCheckpoint(codec, file, offset).Some?
    ensures var c := ReadCheckpoint(codec, file, offset).value;
      WalksOn(codec, file, start, c.previous, seen + {offset}, manifests + [c.manifest])
  {
    hide ReadCheckpoint, ReadIndex, HasFooterMark, Reverse;
    var c := ReadCheckpoint(codec, file, offset).value;
    ReverseAppend(manifests, c.manifest);
    match Walk(codec, file, c.previous, seen + {offset})
    case Failure(_) =>
    case Ok(older) =>
      assert older + ([c.manifest] + Reverse(manifests)) == older + [c.manifest] + Reverse(manifests);
  }
}
