/**
  Which cached navigation file is chosen, in terms of what its manifest says: the day and the station
  decide, then whether it is global, then whether it is mixed, then its digest; and what unsafe or altered
  content comes to.
 */
module RinexChoice {
  import opened Prelude
  import opened RinexCache
  import opened RinexResolver

  // ---------------------------------------------------------------- what an entry offers

  /** What an entry says of its file: the navigation data of its manifest, or of the file where that has none. */
  ghost predicate Offers(parse: Parser, dir: Directory, n: Navigation) {
    exists path, m: Manifest, bytes: Bytes ::
      && path != "manifest.json" && dir.Keys == {path, "manifest.json"}
      && dir["manifest.json"] == Json(m) && dir[path] == Data(bytes)
      && (if m.navigation.Some? then m.navigation == Some(n) else parse(bytes, path) == Rinex(n))
  }

  /** The entry of a digest resolves exactly when it holds one other file, with just that digest, and a manifest. */
  lemma ResolvesExactly(dir: Directory, content: Bytes, r: Result<Artifact, CacheError>)
    requires Resolves(dir, Sha256(content), r)
    ensures r.Ok? <==>
      exists path, m :: path != "manifest.json" && dir == map[path := Data(content), "manifest.json" := Json(m)]
  {
    if r.Ok? {
      ResolvedShape(dir, content, r.value);
    }
    if path, m :| path != "manifest.json" && dir == map[path := Data(content), "manifest.json" := Json(m)] {
      SettledReads(dir, content, path, m, true, r);
    }
  }

  lemma ResolvedShape(dir: Directory, content: Bytes, a: Artifact)
    requires Resolves(dir, Sha256(content), Ok(a))
    ensures a.path != MANIFEST && MANIFEST in dir && dir[MANIFEST].Json?
    ensures dir == map[a.path := Data(content), MANIFEST := dir[MANIFEST]]
    ensures a.digest == Sha256(content)
  {
    var n :| SoleFile(dir, n) && n in dir && Ok(a) == ReadArtifact(dir, n, Sha256(content), true);
    assert dir[MANIFEST].Json?;
    OnlySettledResolves(dir, content, dir[MANIFEST].manifest, Ok(a));
  }

  lemma OffersIffMetadata(parse: Parser, dir: Directory, content: Bytes, a: Artifact, n: Navigation)
    requires Resolves(dir, Sha256(content), Ok(a))
    ensures Offers(parse, dir, n) <==> MetadataOf(parse, dir, a.path) == Some(n)
  {
    ResolvedShape(dir, content, a);
    var m := dir[MANIFEST].manifest;
    assert dir.Keys == {a.path, "manifest.json"};
    if MetadataOf(parse, dir, a.path) == Some(n) {
      assert dir["manifest.json"] == Json(m) && dir[a.path] == Data(content);
    }
    if Offers(parse, dir, n) {
      var path, m', bytes :| path != "manifest.json" && dir.Keys == {path, "manifest.json"}
        && dir["manifest.json"] == Json(m') && dir[path] == Data(bytes)
        && (if m'.navigation.Some? then m'.navigation == Some(n) else parse(bytes, path) == Rinex(n));
      assert path in {a.path, "manifest.json"};
    }
  }

  // ---------------------------------------------------------------- who is a candidate

  /** Navigation data of that day, and of that station or of no particular one. */
  predicate Wanted(n: Navigation, day: int, station: Option<string>) {
    n.dataType == "navigation" && n.nominalDay == Some(day)
    && (station.None? || n.station.None? || n.station.value == station.value)
  }

  /** The candidates are exactly the resolvable entries that offer wanted data. */
  lemma CandidateExactly(parse: Parser, hex: Digest -> nat, root: Root, day: int, station: Option<string>,
                         content: Bytes, a: Artifact)
    requires Sha256(content) in root && Resolves(root[Sha256(content)], Sha256(content), Ok(a))
    ensures (exists c :: IsCandidate(parse, hex, root, day, station, c) && c.artifact == a) <==>
      exists n :: Offers(parse, root[Sha256(content)], n) && Wanted(n, day, station)
  {
    var d := Sha256(content);
    var dir := root[d];
    hide Resolves, Offers;
    if c :| IsCandidate(parse, hex, root, day, station, c) && c.artifact == a {
      var e :| e in root && Yields(parse, hex, root[e], e, day, station, c);
      SameDigest(root[e], e, dir, d, a);
      var n := MetadataOf(parse, dir, a.path).value;
      OffersIffMetadata(parse, dir, content, a, n);
    }
    if n :| Offers(parse, dir, n) && Wanted(n, day, station) {
      OffersIffMetadata(parse, dir, content, a, n);
      var c := Candidate(ScoreOf(n, station, hex(d)), a);
      assert Yields(parse, hex, dir, d, day, station, c);
    }
  }

  lemma SameDigest(dir: Directory, d: Digest, other: Directory, e: Digest, a: Artifact)
    requires Resolves(dir, d, Ok(a)) && Resolves(other, e, Ok(a))
    ensures d == e
  {
  }

  // ---------------------------------------------------------------- who is chosen

  predicate ForStation(n: Navigation, station: Option<string>) {
    station.Some? && n.station == station
  }

  /** What the choice offers is preferred to what any other candidate offers. */
  lemma ChoicePrefers(parse: Parser, hex: Digest -> nat, root: Root, day: int, station: Option<string>,
                      best: Candidate, other: Candidate, p: Bytes, q: Bytes, n: Navigation, m: Navigation)
    requires IsChoice(parse, hex, root, day, station, best)
    requires IsCandidate(parse, hex, root, day, station, other) && other != best
    requires best.artifact.digest == Sha256(p) && other.artifact.digest == Sha256(q)
    requires Sha256(p) in root && Offers(parse, root[Sha256(p)], n)
    requires Sha256(q) in root && Offers(parse, root[Sha256(q)], m)
    ensures Wanted(n, day, station) && Wanted(m, day, station)
    ensures ForStation(m, station) ==> ForStation(n, station)
    ensures ForStation(n, station) == ForStation(m, station) && m.station.None? ==> n.station.None?
    ensures ForStation(n, station) == ForStation(m, station) && n.station.None? == m.station.None? && m.mixed ==>
      n.mixed
    ensures ForStation(n, station) == ForStation(m, station) && n.station.None? == m.station.None?
            && n.mixed == m.mixed ==>
      hex(Sha256(q)) < hex(Sha256(p))
  {
    CandidateScore(parse, hex, root, day, station, best, p, n);
    CandidateScore(parse, hex, root, day, station, other, q, m);
    assert Less(other.score, best.score);
  }

  lemma CandidateScore(parse: Parser, hex: Digest -> nat, root: Root, day: int, station: Option<string>,
                       c: Candidate, content: Bytes, n: Navigation)
    requires IsCandidate(parse, hex, root, day, station, c) && c.artifact.digest == Sha256(content)
    requires Sha256(content) in root && Offers(parse, root[Sha256(content)], n)
    ensures Suits(n, day, station) && c.score == ScoreOf(n, station, hex(Sha256(content)))
  {
    hide Offers;
    var e :| e in root && Yields(parse, hex, root[e], e, day, station, c);
    DigestOf(root[e], e, c.artifact);
    OffersIffMetadata(parse, root[e], content, c.artifact, n);
  }

  lemma DigestOf(dir: Directory, d: Digest, a: Artifact)
    requires Resolves(dir, d, Ok(a))
    ensures a.digest == d
  {
  }

  // ---------------------------------------------------------------- unsafe and altered content

  /** Unsafe content leaves no file of its name and no manifest behind, and is refused. */
  lemma UnsafeIsRemoved(parse: Parser, dir: Directory, content: Bytes, name: Name, source: Option<string>,
                        r: Result<Artifact, CacheError>)
    requires MANIFEST !in dir && parse(content, name) == Unsafe
    requires StoreAnswers(parse, dir, content, Attempt(name, source, Never), r)
    ensures r == Err(UnsafeContent)
    ensures AfterAttempt(parse, dir, content, Attempt(name, source, Never)) == dir - {name}
  {
  }

  /** Content that no longer has the digest of its entry is never handed out. */
  lemma AlteredIsRefused(dir: Directory, path: Name, bytes: Bytes, m: Manifest, content: Bytes,
                         r: Result<Artifact, CacheError>)
    requires path != "manifest.json" && dir == map[path := Data(bytes), "manifest.json" := Json(m)]
    requires Resolves(dir, Sha256(content), r)
    ensures r == Err(Corruption) <==> bytes != content
    ensures bytes == content ==> r == Ok(Artifact(Sha256(content), |content|, path, m.originalName, m.source))
  {
    assert Others(dir) == {path};
    var n :| SoleFile(dir, n) && n in dir && r == ReadArtifact(dir, n, Sha256(content), true);
    assert n in {path};
  }

  /** A store that completes records the size, the name, the source and what the file was parsed to. */
  lemma StoreRecords(parse: Parser, content: Bytes, name: Name, source: Option<string>,
                     r: Result<Artifact, CacheError>)
    requires name != "manifest.json" && parse(content, name) != Unsafe
    requires StoreAnswers(parse, map[], content, Attempt(name, source, Never), r)
    ensures r == Ok(Artifact(Sha256(content), |content|, name, name, source))
    ensures AfterAttempt(parse, map[], content, Attempt(name, source, Never)) ==
      map[name := Data(content),
          "manifest.json" := Json(Manifest(|content|, name, source,
                                           match parse(content, name)
                                           case Rinex(n) => Some(n)
                                           case _ => None))]
  {
  }

  /** What each place a store may be stopped at leaves behind, in a directory without a manifest. */
  lemma StopsLeave(parse: Parser, dir: Directory, content: Bytes, name: Name, source: Option<string>,
                   temp: Name, part: Bytes)
    requires MANIFEST !in dir && parse(content, name) != Unsafe
    ensures AfterAttempt(parse, dir, content, Attempt(name, source, BeforeArtifact)) == dir
    ensures AfterAttempt(parse, dir, content, Attempt(name, source, WritingArtifact(temp, part))) ==
      dir[temp := Data(part)]
    ensures AfterAttempt(parse, dir, content, Attempt(name, source, AfterArtifact)) == dir[name := Data(content)]
    ensures AfterAttempt(parse, dir, content, Attempt(name, source, WritingManifest(temp, part))) ==
      dir[name := Data(content)][temp := Data(part)]
    ensures AfterAttempt(parse, dir, content, Attempt(name, source, AfterManifest)) ==
      AfterAttempt(parse, dir, content, Attempt(name, source, Never))
  {
  }
}
