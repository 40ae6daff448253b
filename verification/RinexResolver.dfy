/** Choosing a navigation file out of the cache, and acquiring one when there is none. */
module RinexResolver {
  import opened Prelude
  import opened RinexCache

  datatype Score = Score(station: nat, global: nat, mixed: nat, sha: nat)

  datatype Candidate = Candidate(score: Score, artifact: Artifact)

  datatype AcquireError = NoCandidate

  /** The resolved navigation, whether it was cached already, and else which provider delivered it. */
  datatype Acquired = Acquired(resolved: Candidate, cacheHit: bool, provider: Option<nat>)

  /** What one provider does: fails, or hands content to the cache. */
  datatype Fetch = Failed | Fetched(content: Bytes, name: Name, source: Option<string>)

  /** The order of hexadecimal digests, as numbers. */
  ghost predicate Injective(hex: Digest -> nat) {
    forall d, e :: hex(d) == hex(e) ==> d == e
  }

  /** The order of the score tuples. */
  predicate Less(a: Score, b: Score) {
    a.station < b.station
    || (a.station == b.station && (a.global < b.global
        || (a.global == b.global && (a.mixed < b.mixed || (a.mixed == b.mixed && a.sha < b.sha)))))
  }

  /** The metadata used for an artifact: the manifest's, else what parsing the file gives. */
  function MetadataOf(parse: Parser, dir: Directory, path: Name): Option<Navigation> {
    if MANIFEST !in dir || dir[MANIFEST].Data? || path !in dir || dir[path].Json? then None
    else if dir[MANIFEST].manifest.navigation.Some? then dir[MANIFEST].manifest.navigation
    else
      match parse(dir[path].bytes, path)
      case Rinex(n) => Some(n)
      case _ => None
  }

  predicate Suits(n: Navigation, day: int, station: Option<string>) {
    n.dataType == "navigation" && n.nominalDay == Some(day)
    && (station.Some? ==> n.station == None || n.station == station)
  }

  function ScoreOf(n: Navigation, station: Option<string>, sha: nat): Score {
    Score(if station.Some? && n.station == station then 1 else 0, if n.station == None then 1 else 0,
          if n.mixed then 1 else 0, sha)
  }

  /** Whether the directory of `digest` yields candidate `c`. */
  ghost predicate Yields(parse: Parser, hex: Digest -> nat, dir: Directory, digest: Digest, day: int,
                         station: Option<string>, c: Candidate) {
    && Resolves(dir, digest, Ok(c.artifact))
    && var n := MetadataOf(parse, dir, c.artifact.path);
      n.Some? && Suits(n.value, day, station) && c.score == ScoreOf(n.value, station, hex(digest))
  }

  lemma ReadsUnique(dir: Directory, digest: Digest, a: Result<Artifact, CacheError>, b: Result<Artifact, CacheError>)
    requires Resolves(dir, digest, a) && Resolves(dir, digest, b)
    ensures a == b
  {
    if MANIFEST in dir && |Others(dir)| == 1 {
      var m :| SoleFile(dir, m) && m in dir && a == ReadArtifact(dir, m, digest, true);
      var n :| SoleFile(dir, n) && n in dir && b == ReadArtifact(dir, n, digest, true);
      assert m in Others(dir) && n in Others(dir);
    }
  }

  lemma YieldsUnique(parse: Parser, hex: Digest -> nat, dir: Directory, digest: Digest, day: int,
                     station: Option<string>, c: Candidate, e: Candidate)
    requires Yields(parse, hex, dir, digest, day, station, c) && Yields(parse, hex, dir, digest, day, station, e)
    ensures c == e
  {
    ReadsUnique(dir, digest, Ok(c.artifact), Ok(e.artifact));
  }

  ghost predicate IsCandidate(parse: Parser, hex: Digest -> nat, root: Root, day: int, station: Option<string>,
                              c: Candidate) {
    exists d :: d in root && Yields(parse, hex, root[d], d, day, station, c)
  }

  /** `best` is the candidate whose score is above that of every other candidate. */
  ghost predicate IsChoice(parse: Parser, hex: Digest -> nat, root: Root, day: int, station: Option<string>,
                           best: Candidate) {
    && IsCandidate(parse, hex, root, day, station, best)
    && forall c :: IsCandidate(parse, hex, root, day, station, c) && c != best ==> Less(c.score, best.score)
  }

  /** There is only one choice, whatever order the manifests were scanned in. */
  lemma ChoiceUnique(parse: Parser, hex: Digest -> nat, root: Root, day: int, station: Option<string>, a: Candidate,
                     b: Candidate)
    requires IsChoice(parse, hex, root, day, station, a) && IsChoice(parse, hex, root, day, station, b)
    ensures a == b
  {
    hide IsCandidate;
    assert a != b ==> Less(a.score, b.score);
  }

  /** Scores never tie: they end in the digest. */
  lemma ScoresDiffer(parse: Parser, hex: Digest -> nat, root: Root, day: int, station: Option<string>, c: Candidate,
                     e: Candidate)
    requires Injective(hex)
    requires IsCandidate(parse, hex, root, day, station, c) && IsCandidate(parse, hex, root, day, station, e) && c != e
    ensures Less(c.score, e.score) || Less(e.score, c.score)
  {
    hide Resolves, MetadataOf;
    var d :| d in root && Yields(parse, hex, root[d], d, day, station, c);
    var f :| f in root && Yields(parse, hex, root[f], f, day, station, e);
    if d == f {
      YieldsUnique(parse, hex, root[d], d, day, station, c, e);
    }
    assert hex(d) != hex(f);
  }

  /** The first element after sorting by score, highest first. */
  function Best(candidates: seq<Candidate>): (b: Candidate)
    requires candidates != []
    ensures b in candidates && forall c :: c in candidates ==> !Less(b.score, c.score)
  {
    if |candidates| == 1 then candidates[0]
    else
      var last := candidates[|candidates| - 1];
      var b := Best(candidates[..|candidates| - 1]);
      if Less(b.score, last.score) then last else b
  }

  /** Scanning all manifests in any order and taking the best finds the one choice, if there is any candidate. */
  method Resolve(parse: Parser, hex: Digest -> nat, cache: Cache, scan: seq<Digest>, day: int, station: Option<string>)
    returns (r: Result<Candidate, AcquireError>)
    requires Injective(hex) && forall d :: d in cache.root <==> d in scan
    ensures r.Ok? ==> IsChoice(parse, hex, cache.root, day, station, r.value)
    ensures r.Err? ==> !exists c :: IsCandidate(parse, hex, cache.root, day, station, c)
  {
    hide Resolves, Yields, IsChoice;
    var candidates: seq<Candidate> := [];
    for k := 0 to |scan|
      invariant forall c :: c in candidates <==>
        exists i :: 0 <= i < k && Yields(parse, hex, cache.DirectoryOf(scan[i]), scan[i], day, station, c)
    {
      var c := CandidateOf(parse, hex, cache, scan[k], day, station);
      if c.Some? {
        candidates := candidates + [c.value];
      }
    }
    forall c ensures c in candidates <==> IsCandidate(parse, hex, cache.root, day, station, c) {
      ScannedAll(parse, hex, cache, scan, day, station, c);
    }
    if candidates == [] {
      return Err(NoCandidate);
    }
    var best := Best(candidates);
    BestIsChoice(parse, hex, cache.root, day, station, candidates, best);
    r := Ok(best);
  }

  lemma ScannedAll(parse: Parser, hex: Digest -> nat, cache: Cache, scan: seq<Digest>, day: int,
                   station: Option<string>, c: Candidate)
    requires forall d :: d in cache.root <==> d in scan
    ensures (exists i :: 0 <= i < |scan| && Yields(parse, hex, cache.DirectoryOf(scan[i]), scan[i], day, station, c))
      <==> IsCandidate(parse, hex, cache.root, day, station, c)
  {
    hide Yields;
    if IsCandidate(parse, hex, cache.root, day, station, c) {
      var d :| d in cache.root && Yields(parse, hex, cache.root[d], d, day, station, c);
      var i :| 0 <= i < |scan| && scan[i] == d;
    }
  }

  lemma BestIsChoice(parse: Parser, hex: Digest -> nat, root: Root, day: int, station: Option<string>,
                     candidates: seq<Candidate>, best: Candidate)
    requires Injective(hex) && best in candidates && forall c :: c in candidates ==> !Less(best.score, c.score)
    requires forall c :: c in candidates <==> IsCandidate(parse, hex, root, day, station, c)
    ensures IsChoice(parse, hex, root, day, station, best)
  {
    hide IsCandidate, Less;
    forall c | IsCandidate(parse, hex, root, day, station, c) && c != best ensures Less(c.score, best.score) {
      ScoresDiffer(parse, hex, root, day, station, c, best);
    }
  }

  /** One manifest of the scan: anything unreadable or unsuitable is skipped. */
  method CandidateOf(parse: Parser, hex: Digest -> nat, cache: Cache, digest: Digest, day: int, station: Option<string>)
    returns (c: Option<Candidate>)
    ensures forall x :: Yields(parse, hex, cache.DirectoryOf(digest), digest, day, station, x) <==> c == Some(x)
  {
    hide Resolves;
    var dir := cache.DirectoryOf(digest);
    var artifact := cache.Resolve(digest);
    forall b | Resolves(dir, digest, b) ensures b == artifact { ReadsUnique(dir, digest, b, artifact); }
    if artifact.Err? {
      return None;
    }
    var metadata := MetadataOf(parse, dir, artifact.value.path);
    if metadata.None? || !Suits(metadata.value, day, station) {
      return None;
    }
    c := Some(Candidate(ScoreOf(metadata.value, station, hex(digest)), artifact.value));
  }

  // ---------------------------------------------------------------- acquisition

  /** `list` enumerates the entries of a cache. */
  ghost predicate Lists(list: Root -> seq<Digest>) {
    forall root: Root, d :: d in root <==> d in list(root)
  }

  /** Attempts elsewhere or here never take a candidate away: its manifest is final. */
  lemma CandidatesPersist(parse: Parser, hex: Digest -> nat, root: Root, later: Root, day: int,
                          station: Option<string>, c: Candidate)
    requires IsCandidate(parse, hex, root, day, station, c)
    requires forall d :: d in root ==> d in later && exists content, attempts ::
               later[d] == AfterAttempts(parse, root[d], content, attempts)
    ensures IsCandidate(parse, hex, later, day, station, c)
  {
    hide AfterAttempts, MetadataOf;
    var d :| d in root && Yields(parse, hex, root[d], d, day, station, c);
    var content, attempts :| later[d] == AfterAttempts(parse, root[d], content, attempts);
    ManifestIsFinal(parse, root[d], content, attempts);
  }

  lemma NoManifestNoCandidate(parse: Parser, hex: Digest -> nat, dir: Directory, digest: Digest, day: int,
                              station: Option<string>, c: Candidate)
    requires MANIFEST !in dir
    ensures !Yields(parse, hex, dir, digest, day, station, c)
  {
  }

  /** The cache after one provider was asked. */
  function AfterFetch(parse: Parser, root: Root, fetch: Fetch): Root {
    match fetch
    case Failed => root
    case Fetched(content, name, source) =>
      if content == [] then root
      else
        var d := Sha256(content);
        root[d := AfterAttempt(parse, Entry(root, d), content, Attempt(name, source, Never))]
  }

  function AfterFetches(parse: Parser, root: Root, fetches: seq<Fetch>): Root {
    if fetches == [] then root
    else AfterFetch(parse, AfterFetches(parse, root, fetches[..|fetches| - 1]), fetches[|fetches| - 1])
  }

  ghost predicate HasCandidate(parse: Parser, hex: Digest -> nat, root: Root, day: int, station: Option<string>) {
    exists c :: IsCandidate(parse, hex, root, day, station, c)
  }

  /** A store that fails without being stopped leaves no new candidate. */
  lemma FailedStoreAddsNothing(parse: Parser, hex: Digest -> nat, before: Root, content: Bytes, name: Name,
                               source: Option<string>, stored: Result<Artifact, CacheError>, day: int,
                               station: Option<string>)
    requires content != [] && stored.Err? && !HasCandidate(parse, hex, before, day, station)
    requires StoreAnswers(parse, Entry(before, Sha256(content)), content, Attempt(name, source, Never), stored)
    ensures !HasCandidate(parse, hex, AfterFetch(parse, before, Fetched(content, name, source)), day, station)
  {
    hide Resolves, MetadataOf;
    var after := AfterFetch(parse, before, Fetched(content, name, source));
    forall c ensures !IsCandidate(parse, hex, after, day, station, c) {
      forall d | d in after ensures !Yields(parse, hex, after[d], d, day, station, c) {
        if MANIFEST !in after[d] {
          NoManifestNoCandidate(parse, hex, after[d], d, day, station, c);
        } else {
          assert Entry(before, d) == after[d];
          assert !IsCandidate(parse, hex, before, day, station, c);
        }
      }
    }
  }

  /**
    One provider: fetch, store, and look again.  The cache becomes what the store makes of it, and the
    answer is its choice, given exactly when it now has a candidate.
   */
  method TryProvider(parse: Parser, hex: Digest -> nat, list: Root -> seq<Digest>, cache: Cache, fetch: Fetch,
                     day: int, station: Option<string>) returns (r: Result<Candidate, AcquireError>)
    requires Injective(hex) && Lists(list)
    requires !HasCandidate(parse, hex, cache.root, day, station)
    modifies cache
    ensures cache.root == AfterFetch(parse, old(cache.root), fetch)
    ensures r.Ok? <==> HasCandidate(parse, hex, cache.root, day, station)
    ensures r.Ok? ==> fetch.Fetched? && IsChoice(parse, hex, cache.root, day, station, r.value)
  {
    hide Yields, IsCandidate, Less;
    if fetch.Failed? {
      return Err(NoCandidate);
    }
    var stored := cache.StoreBytes(parse, fetch.content, None, Attempt(fetch.name, fetch.source, Never));
    if stored.Err? {
      if fetch.content != [] {
        FailedStoreAddsNothing(
          parse, hex, old(cache.root), fetch.content, fetch.name, fetch.source, stored, day, station);
      }
      return Err(NoCandidate);
    }
    r := Resolve(parse, hex, cache, list(cache.root), day, station);
  }

  /** The first provider whose store gives the cache a candidate, if there is one. */
  ghost predicate FirstHelpful(parse: Parser, hex: Digest -> nat, root: Root, fetches: seq<Fetch>, day: int,
                               station: Option<string>, i: nat)
  {
    && i < |fetches| && HasCandidate(parse, hex, AfterFetches(parse, root, fetches[..i + 1]), day, station)
    && forall j :: 0 <= j <= i ==> !HasCandidate(parse, hex, AfterFetches(parse, root, fetches[..j]), day, station)
  }

  /**
    Cache first, then the providers in order.  It is a hit, without touching the cache, exactly when the
    cache already held a candidate.  Otherwise providers are asked up to the first one whose store gives the
    cache a candidate; it fails exactly when all were asked and none did.  Whatever is returned is
    the one choice of the cache as it then is.
   */
  method Ensure(parse: Parser, hex: Digest -> nat, list: Root -> seq<Digest>, cache: Cache, fetches: seq<Fetch>,
                day: int, station: Option<string>) returns (r: Result<Acquired, AcquireError>)
    requires Injective(hex) && Lists(list)
    modifies cache
    ensures r.Ok? ==> IsChoice(parse, hex, cache.root, day, station, r.value.resolved)
    ensures HasCandidate(parse, hex, old(cache.root), day, station) <==> r.Ok? && r.value.cacheHit
    ensures r.Ok? && r.value.cacheHit ==> cache.root == old(cache.root) && r.value.provider == None
    ensures r.Ok? && !r.value.cacheHit ==>
      && r.value.provider.Some?
      && FirstHelpful(parse, hex, old(cache.root), fetches, day, station, r.value.provider.value)
      && cache.root == AfterFetches(parse, old(cache.root), fetches[..r.value.provider.value + 1])
    ensures r.Err? ==> cache.root == AfterFetches(parse, old(cache.root), fetches)
    ensures r.Err? <==> forall i :: 0 <= i <= |fetches| ==>
      !HasCandidate(parse, hex, AfterFetches(parse, old(cache.root), fetches[..i]), day, station)
  {
    hide IsCandidate, Less, AfterFetch;
    assert fetches[..0] == [] && fetches[..|fetches|] == fetches;
    var cached := Resolve(parse, hex, cache, list(cache.root), day, station);
    if cached.Ok? {
      assert IsCandidate(parse, hex, cache.root, day, station, cached.value);
      assert HasCandidate(parse, hex, AfterFetches(parse, cache.root, fetches[..0]), day, station);
      return Ok(Acquired(cached.value, true, None));
    }
    for i := 0 to |fetches|
      invariant cache.root == AfterFetches(parse, old(cache.root), fetches[..i])
      invariant forall j :: 0 <= j <= i ==>
        !HasCandidate(parse, hex, AfterFetches(parse, old(cache.root), fetches[..j]), day, station)
    {
      assert fetches[..i + 1][..i] == fetches[..i];
      var resolved := TryProvider(parse, hex, list, cache, fetches[i], day, station);
      if resolved.Ok? {
        return Ok(Acquired(resolved.value, false, Some(i)));
      }
    }
    r := Err(NoCandidate);
  }

  /** Asking again for the same day and station is a hit on the same artifact, whatever providers would say. */
  method EnsureTwice(parse: Parser, hex: Digest -> nat, list: Root -> seq<Digest>, cache: Cache, fetches: seq<Fetch>,
                     others: seq<Fetch>, day: int, station: Option<string>)
    returns (first: Result<Acquired, AcquireError>, second: Result<Acquired, AcquireError>)
    requires Injective(hex) && Lists(list)
    modifies cache
    ensures first.Ok? ==> second == Ok(Acquired(first.value.resolved, true, None))
  {
    hide IsCandidate, Less, FirstHelpful;
    first := Ensure(parse, hex, list, cache, fetches, day, station);
    ghost var root := cache.root;
    second := Ensure(parse, hex, list, cache, others, day, station);
    if first.Ok? {
      assert HasCandidate(parse, hex, root, day, station);
      ChoiceUnique(parse, hex, root, day, station, first.value.resolved, second.value.resolved);
    }
  }
}
