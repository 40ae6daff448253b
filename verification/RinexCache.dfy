/**
  The content-addressed RINEX cache as directories of files.  A store may be stopped between any two
  file operations; a temporary file then stays behind.
 */
module RinexCache {
  import opened Prelude

  type Name = string

  const MANIFEST: Name := "manifest.json"

  /** What the RINEX parser makes of a file. */
  datatype Navigation = Navigation(dataType: string, nominalDay: Option<int>, station: Option<string>, mixed: bool)

  datatype Parsed = Rinex(navigation: Navigation) | NotRinex | Unsafe

  type Parser = (Bytes, Name) -> Parsed

  datatype Manifest = Manifest(size: nat, originalName: Name, source: Option<string>, navigation: Option<Navigation>)

  datatype File = Data(bytes: Bytes) | Json(manifest: Manifest)

  type Directory = map<Name, File>

  datatype Artifact = Artifact(digest: Digest, size: nat, path: Name, originalName: Name, source: Option<string>)

  datatype CacheError =
    | EmptyContent
    | DigestMismatch
    | InvalidLayout
    | Corruption
    | UnreadableManifest
    | UnsafeContent
    | NotFound
    | Stopped

  /** Where a store is stopped; the temporary file of an unfinished write stays behind. */
  datatype Stop =
    | Never
    | BeforeArtifact
    | WritingArtifact(temp: Name, part: Bytes)
    | AfterArtifact
    | WritingManifest(temp: Name, part: Bytes)
    | AfterManifest

  datatype Attempt = Attempt(name: Name, source: Option<string>, stop: Stop)

  // ---------------------------------------------------------------- one directory

  function Others(dir: Directory): set<Name> {
    dir.Keys - {MANIFEST}
  }

  /** The one file beside the manifest. */
  ghost predicate SoleFile(dir: Directory, n: Name) {
    Others(dir) == {n}
  }

  /** Looking for an existing artifact: none without a manifest, an error unless one file stands beside it. */
  ghost predicate Finds(dir: Directory, r: Result<Option<Name>, CacheError>) {
    match r
    case Ok(None) => MANIFEST !in dir
    case Ok(Some(n)) => MANIFEST in dir && SoleFile(dir, n)
    case Err(e) => e == InvalidLayout && MANIFEST in dir && |Others(dir)| != 1
  }

  /** What reading the artifact `n` gives: a store takes the size from the manifest, a resolve counts. */
  function ReadArtifact(dir: Directory, n: Name, digest: Digest, counts: bool): Result<Artifact, CacheError>
    requires MANIFEST in dir && n in dir
  {
    if dir[n].Json? || Sha256(dir[n].bytes) != digest then Err(Corruption)
    else
      match dir[MANIFEST]
      case Data(_) => Err(UnreadableManifest)
      case Json(m) =>
        Ok(Artifact(digest, if counts then |dir[n].bytes| else m.size, n, m.originalName, m.source))
  }

  ghost predicate Reads(dir: Directory, digest: Digest, counts: bool, r: Result<Artifact, CacheError>) {
    if MANIFEST !in dir then r == Err(NotFound)
    else if |Others(dir)| != 1 then r == Err(InvalidLayout)
    else exists n :: SoleFile(dir, n) && n in dir && r == ReadArtifact(dir, n, digest, counts)
  }

  ghost predicate Resolves(dir: Directory, digest: Digest, r: Result<Artifact, CacheError>) {
    Reads(dir, digest, true, r)
  }

  function ManifestOf(parse: Parser, content: Bytes, a: Attempt): Manifest {
    var parsed := parse(content, a.name);
    Manifest(|content|, a.name, a.source, if parsed.Rinex? then Some(parsed.navigation) else None)
  }

  /** The directory an attempt leaves, where no manifest stood before. */
  function Written(parse: Parser, dir: Directory, content: Bytes, a: Attempt): Directory {
    match a.stop
    case BeforeArtifact => dir
    case WritingArtifact(temp, part) => dir[temp := Data(part)]
    case _ =>
      var stored := dir[a.name := Data(content)];
      if a.stop == AfterArtifact then stored
      else if parse(content, a.name) == Unsafe then stored - {a.name}
      else if a.stop.WritingManifest? then stored[a.stop.temp := Data(a.stop.part)]
      else stored[MANIFEST := Json(ManifestOf(parse, content, a))]
  }

  /** The directory an attempt leaves in general: an existing manifest is never touched. */
  function AfterAttempt(parse: Parser, dir: Directory, content: Bytes, a: Attempt): Directory {
    if MANIFEST in dir then dir else Written(parse, dir, content, a)
  }

  function AfterAttempts(parse: Parser, dir: Directory, content: Bytes, attempts: seq<Attempt>): Directory {
    if attempts == [] then dir
    else
      var before := AfterAttempts(parse, dir, content, attempts[..|attempts| - 1]);
      AfterAttempt(parse, before, content, attempts[|attempts| - 1])
  }

  // ---------------------------------------------------------------- the cache

  type Root = map<Digest, Directory>

  function Entry(root: Root, digest: Digest): Directory {
    if digest in root then root[digest] else map[]
  }

  class Cache {
    var root: Root

    constructor ()
      ensures root == map[]
    {
      root := map[];
    }

    function DirectoryOf(digest: Digest): Directory
      reads this
    {
      Entry(root, digest)
    }

    method FindExisting(digest: Digest) returns (r: Result<Option<Name>, CacheError>)
      ensures Finds(DirectoryOf(digest), r)
    {
      var dir := DirectoryOf(digest);
      if MANIFEST !in dir {
        return Ok(None);
      }
      var candidates := Others(dir);
      if |candidates| != 1 {
        return Err(InvalidLayout);
      }
      var n :| n in candidates;
      SingletonSet(candidates, n);
      r := Ok(Some(n));
    }

    method Put(digest: Digest, name: Name, file: File)
      modifies this
      ensures root == old(root)[digest := old(DirectoryOf(digest))[name := file]]
    {
      root := root[digest := DirectoryOf(digest)[name := file]];
    }

    method Unlink(digest: Digest, name: Name)
      modifies this
      ensures root == old(root)[digest := old(DirectoryOf(digest)) - {name}]
    {
      root := root[digest := DirectoryOf(digest) - {name}];
    }

    /** The writing half of a store, for a directory without a manifest. */
    method WriteEntry(parse: Parser, digest: Digest, content: Bytes, a: Attempt)
      returns (r: Result<Artifact, CacheError>)
      requires digest == Sha256(content) && digest in root && MANIFEST !in root[digest]
      modifies this
      ensures root == old(root)[digest := Written(parse, old(root)[digest], content, a)]
      ensures WriteAnswers(parse, content, a, r)
    {
      if a.stop == BeforeArtifact {
        return Err(Stopped);
      }
      if a.stop.WritingArtifact? {
        Put(digest, a.stop.temp, Data(a.stop.part));
        return Err(Stopped);
      }
      Put(digest, a.name, Data(content));
      if a.stop == AfterArtifact {
        return Err(Stopped);
      }
      if parse(content, a.name) == Unsafe {
        Unlink(digest, a.name);
        return Err(UnsafeContent);
      }
      if a.stop.WritingManifest? {
        Put(digest, a.stop.temp, Data(a.stop.part));
        return Err(Stopped);
      }
      Put(digest, MANIFEST, Json(ManifestOf(parse, content, a)));
      if a.stop == AfterManifest {
        return Err(Stopped);
      }
      r := Ok(Artifact(digest, |content|, a.name, a.name, a.source));
    }

    /**
      One store.  Only the directory of the content's own digest changes, as `AfterAttempt` says; where a
      manifest stands the stored artifact is returned with the metadata of the store that wrote it.
     */
    method StoreBytes(parse: Parser, content: Bytes, expected: Option<Digest>, a: Attempt)
      returns (r: Result<Artifact, CacheError>)
      modifies this
      ensures content == [] ==> r == Err(EmptyContent) && root == old(root)
      ensures content != [] && expected.Some? && expected.value != Sha256(content) ==>
                r == Err(DigestMismatch) && root == old(root)
      ensures content != [] && expected in {None, Some(Sha256(content))} ==>
                DirectoryOf(Sha256(content)) == AfterAttempt(parse, old(DirectoryOf(Sha256(content))), content, a)
                && StoreAnswers(parse, old(DirectoryOf(Sha256(content))), content, a, r)
      ensures content != [] && expected in {None, Some(Sha256(content))} ==>
                root == old(root)[Sha256(content) := AfterAttempt(parse, Entry(old(root), Sha256(content)), content, a)]
    {
      hide Written, WriteAnswers, ReadArtifact;
      if content == [] {
        return Err(EmptyContent);
      }
      var digest := Sha256(content);
      if expected.Some? && expected.value != digest {
        return Err(DigestMismatch);
      }
      root := root[digest := DirectoryOf(digest)]; // mkdir
      var existing := FindExisting(digest);
      if existing.Err? {
        return Err(existing.error);
      }
      if existing.value.Some? {
        assert existing.value.value in Others(DirectoryOf(digest));
        return ReadArtifact(DirectoryOf(digest), existing.value.value, digest, false);
      }
      r := WriteEntry(parse, digest, content, a);
    }

    method Resolve(digest: Digest) returns (r: Result<Artifact, CacheError>)
      ensures Resolves(DirectoryOf(digest), digest, r)
    {
      var existing := FindExisting(digest);
      if existing.Err? {
        return Err(existing.error);
      }
      if existing.value.None? {
        return Err(NotFound);
      }
      assert existing.value.value in Others(DirectoryOf(digest));
      r := ReadArtifact(DirectoryOf(digest), existing.value.value, digest, true);
    }
  }

  /** The answer of a store that passed the checks on its arguments. */
  ghost predicate StoreAnswers(parse: Parser, dir: Directory, content: Bytes, a: Attempt,
                               r: Result<Artifact, CacheError>) {
    if MANIFEST in dir then Reads(dir, Sha256(content), false, r) else WriteAnswers(parse, content, a, r)
  }

  ghost predicate WriteAnswers(parse: Parser, content: Bytes, a: Attempt, r: Result<Artifact, CacheError>) {
    if StopsEarly(a.stop) then r == Err(Stopped)
    else if parse(content, a.name) == Unsafe then r == Err(UnsafeContent)
    else if a.stop != Never then r == Err(Stopped)
    else r == Ok(Artifact(Sha256(content), |content|, a.name, a.name, a.source))
  }

  predicate StopsEarly(stop: Stop) {
    stop.BeforeArtifact? || stop.WritingArtifact? || stop.AfterArtifact?
  }

  lemma SingletonSet(s: set<Name>, n: Name)
    requires |s| == 1 && n in s
    ensures s == {n}
  {
    assert |s - {n}| == 0;
    assert s == {n} + (s - {n});
  }

  // ---------------------------------------------------------------- runs of attempts

  /** An attempt that gets as far as replacing the manifest. */
  predicate Completes(parse: Parser, content: Bytes, a: Attempt) {
    a.stop in {Never, AfterManifest} && parse(content, a.name) != Unsafe
  }

  /** The directory of a finished store: the bytes, and the manifest of the store that finished first. */
  ghost predicate Settled(dir: Directory, content: Bytes, path: Name, m: Manifest) {
    path != MANIFEST && dir == map[path := Data(content), MANIFEST := Json(m)]
  }

  lemma SettledReads(dir: Directory, content: Bytes, path: Name, m: Manifest, counts: bool,
                     r: Result<Artifact, CacheError>)
    requires Settled(dir, content, path, m) && Reads(dir, Sha256(content), counts, r)
    ensures r == Ok(Artifact(Sha256(content), if counts then |content| else m.size, path, m.originalName, m.source))
  {
    assert Others(dir) == {path};
    var n :| SoleFile(dir, n) && n in dir && r == ReadArtifact(dir, n, Sha256(content), counts);
    assert n in Others(dir);
  }

  /** A directory with a manifest resolves only if it is settled. */
  lemma OnlySettledResolves(dir: Directory, content: Bytes, m: Manifest, r: Result<Artifact, CacheError>)
    requires MANIFEST in dir && dir[MANIFEST] == Json(m) && Resolves(dir, Sha256(content), r) && r.Ok?
    ensures Settled(dir, content, r.value.path, m)
  {
    var n :| SoleFile(dir, n) && n in dir && r == ReadArtifact(dir, n, Sha256(content), true);
    assert n in Others(dir);
    assert dir.Keys == Others(dir) + {MANIFEST};
  }

  /** What may lie in the directory when the first store finishes, for the result to be usable. */
  ghost predicate Clean(dir: Directory, content: Bytes, name: Name) {
    if name == MANIFEST then exists x :: x != MANIFEST && dir == map[x := Data(content)]
    else dir.Keys <= {name}
  }

  lemma CleanSettles(parse: Parser, dir: Directory, content: Bytes, a: Attempt)
    requires MANIFEST !in dir && Completes(parse, content, a) && Clean(dir, content, a.name)
    ensures exists path :: Settled(Written(parse, dir, content, a), content, path, ManifestOf(parse, content, a))
  {
    var after := Written(parse, dir, content, a);
    if a.name == MANIFEST {
      var x :| x != MANIFEST && dir == map[x := Data(content)];
      assert Settled(after, content, x, ManifestOf(parse, content, a));
    } else {
      assert after == map[a.name := Data(content), MANIFEST := Json(ManifestOf(parse, content, a))];
      assert Settled(after, content, a.name, ManifestOf(parse, content, a));
    }
  }

  lemma SettledWasClean(parse: Parser, dir: Directory, content: Bytes, a: Attempt, path: Name)
    requires MANIFEST !in dir && Completes(parse, content, a)
    requires Settled(Written(parse, dir, content, a), content, path, ManifestOf(parse, content, a))
    ensures Clean(dir, content, a.name)
  {
    var after := Written(parse, dir, content, a);
    assert after == dir[a.name := Data(content)][MANIFEST := Json(ManifestOf(parse, content, a))];
    assert after.Keys == {path, MANIFEST};
    if a.name == MANIFEST {
      assert path in dir && dir[path] == Data(content);
      forall x | x in dir ensures x == path { assert x in after; }
      assert dir == map[path := Data(content)];
    } else {
      assert a.name in after;
      forall x | x in dir ensures x == a.name { assert x in after; }
    }
  }

  /**
    The first completed store over whatever stopped stores left behind: it can be resolved exactly when
    nothing was left under another name, and, should the artifact be called manifest.json and so be
    overwritten by its own manifest, when exactly one other complete copy was left.
   */
  lemma FirstStoreResolvesExactly(parse: Parser, dir: Directory, content: Bytes, a: Attempt,
                                  r: Result<Artifact, CacheError>)
    requires MANIFEST !in dir && Completes(parse, content, a)
    requires Resolves(Written(parse, dir, content, a), Sha256(content), r)
    ensures r.Ok? <==> Clean(dir, content, a.name)
    ensures r.Ok? ==> Settled(Written(parse, dir, content, a), content, r.value.path, ManifestOf(parse, content, a))
  {
    hide Clean, Reads, Settled;
    var after, m := Written(parse, dir, content, a), ManifestOf(parse, content, a);
    assert MANIFEST in after && after[MANIFEST] == Json(m);
    hide Written;
    if Clean(dir, content, a.name) {
      CleanSettles(parse, dir, content, a);
      var path :| Settled(after, content, path, m);
      SettledReads(after, content, path, m, true, r);
    }
    if r.Ok? {
      OnlySettledResolves(after, content, m, r);
      SettledWasClean(parse, dir, content, a, r.value.path);
    }
  }

  /** Once a manifest stands, no later attempt changes the directory, usable or not. */
  lemma {:induction false} ManifestIsFinal(parse: Parser, dir: Directory, content: Bytes, attempts: seq<Attempt>)
    requires MANIFEST in dir
    ensures AfterAttempts(parse, dir, content, attempts) == dir
  {
    if attempts != [] {
      ManifestIsFinal(parse, dir, content, attempts[..|attempts| - 1]);
    }
  }

  /** Temporary names start with a dot and stored names do not. */
  predicate Named(a: Attempt) {
    a.name != MANIFEST && a.name != "" && a.name[0] != '.'
    && (a.stop.WritingArtifact? || a.stop.WritingManifest? ==> a.stop.temp != "" && a.stop.temp[0] == '.')
  }

  /** An attempt that can leave no file but its own artifact. */
  predicate Tidy(a: Attempt) {
    Named(a) && !a.stop.WritingArtifact? && !a.stop.WritingManifest?
  }

  /** Before the first completion, tidy attempts under one name leave at most that file. */
  lemma {:induction false} OnlyOwnFile(parse: Parser, content: Bytes, name: Name, attempts: seq<Attempt>)
    requires forall k :: 0 <= k < |attempts| ==>
               Tidy(attempts[k]) && attempts[k].name == name && !Completes(parse, content, attempts[k])
    ensures AfterAttempts(parse, map[], content, attempts).Keys <= {name}
    ensures name != MANIFEST ==> MANIFEST !in AfterAttempts(parse, map[], content, attempts)
  {
    if attempts != [] {
      OnlyOwnFile(parse, content, name, attempts[..|attempts| - 1]);
    }
  }

  lemma {:induction false} AttemptsSplit(parse: Parser, dir: Directory, content: Bytes, s: seq<Attempt>,
                                         t: seq<Attempt>)
    ensures AfterAttempts(parse, dir, content, s + t)
            == AfterAttempts(parse, AfterAttempts(parse, dir, content, s), content, t)
  {
    hide AfterAttempt;
    if t == [] {
      assert s + t == s;
    } else {
      AttemptsSplit(parse, dir, content, s, t[..|t| - 1]);
      assert (s + t)[..|s + t| - 1] == s + t[..|t| - 1];
    }
  }

  /**
    Over any run of attempts for one content: stops between the artifact and the manifest, retried
    under the same name, then a completed store, then anything at all.  A resolve, and any further
    store, then gives exactly the stored bytes with the metadata of the store that completed first.
   */
  lemma RunResolves(parse: Parser, content: Bytes, before: seq<Attempt>, first: Attempt, later: seq<Attempt>,
                    counts: bool, r: Result<Artifact, CacheError>)
    requires Tidy(first) && Completes(parse, content, first)
    requires forall k :: 0 <= k < |before| ==>
               Tidy(before[k]) && before[k].name == first.name && !Completes(parse, content, before[k])
    requires Reads(AfterAttempts(parse, map[], content, before + [first] + later), Sha256(content), counts, r)
    ensures r == Ok(Artifact(Sha256(content), |content|, first.name, first.name, first.source))
    ensures AfterAttempts(parse, map[], content, before + [first] + later)
      == map[first.name := Data(content), MANIFEST := Json(ManifestOf(parse, content, first))]
  {
    hide Reads, AfterAttempts;
    var left := AfterAttempts(parse, map[], content, before);
    OnlyOwnFile(parse, content, first.name, before);
    AttemptsSplit(parse, map[], content, before, [first]);
    AttemptsSplit(parse, map[], content, before + [first], later);
    OneAttempt(parse, left, content, first);
    var after := Written(parse, left, content, first);
    assert after == map[first.name := Data(content), MANIFEST := Json(ManifestOf(parse, content, first))];
    hide Written;
    ManifestIsFinal(parse, after, content, later);
    SettledReads(after, content, first.name, ManifestOf(parse, content, first), counts, r);
  }

  lemma OneAttempt(parse: Parser, dir: Directory, content: Bytes, a: Attempt)
    ensures AfterAttempts(parse, dir, content, [a]) == AfterAttempt(parse, dir, content, a)
  {
    assert [a][..0] == [];
  }

  // ---------------------------------------------------------------- leftovers that break a digest

  const PLAIN: Parser := (content, name) => NotRinex

  lemma TwoOthersFail(dir: Directory, x: Name, y: Name, digest: Digest, r: Result<Artifact, CacheError>)
    requires MANIFEST in dir && x in dir && y in dir && x != y && x != MANIFEST && y != MANIFEST
    requires Resolves(dir, digest, r)
    ensures r == Err(InvalidLayout)
  {
    assert x in Others(dir) && y in Others(dir);
    if |Others(dir)| == 1 {
      SingletonSet(Others(dir), x);
    }
  }

  lemma NoOthersFail(dir: Directory, digest: Digest, r: Result<Artifact, CacheError>)
    requires dir.Keys == {MANIFEST} && Resolves(dir, digest, r)
    ensures r == Err(InvalidLayout)
  {
    assert Others(dir) == {};
  }

  /** Killed while writing, then stored again under the same name: the temporary file makes it unusable. */
  lemma KilledWriteBreaks(content: Bytes, r: Result<Artifact, CacheError>)
    requires Resolves(AfterAttempts(PLAIN, map[], content,
               [Attempt("a", None, WritingArtifact(".a.x", [])), Attempt("a", None, Never)]), Sha256(content), r)
    ensures r == Err(InvalidLayout)
  {
    var first, second := Attempt("a", None, WritingArtifact(".a.x", [])), Attempt("a", None, Never);
    TwoAttempts(PLAIN, content, first, second);
    TwoOthersFail(AfterAttempts(PLAIN, map[], content, [first, second]), ".a.x", "a", Sha256(content), r);
  }

  /** Stopped between artifact and manifest, then stored under another name. */
  lemma OtherNameBreaks(content: Bytes, r: Result<Artifact, CacheError>)
    requires Resolves(AfterAttempts(PLAIN, map[], content,
               [Attempt("a", None, AfterArtifact), Attempt("b", None, Never)]), Sha256(content), r)
    ensures r == Err(InvalidLayout)
  {
    var first, second := Attempt("a", None, AfterArtifact), Attempt("b", None, Never);
    TwoAttempts(PLAIN, content, first, second);
    TwoOthersFail(AfterAttempts(PLAIN, map[], content, [first, second]), "a", "b", Sha256(content), r);
  }

  /** One undisturbed store of an artifact called manifest.json. */
  lemma ManifestNameBreaks(content: Bytes, r: Result<Artifact, CacheError>)
    requires Resolves(AfterAttempts(PLAIN, map[], content, [Attempt(MANIFEST, None, Never)]), Sha256(content), r)
    ensures r == Err(InvalidLayout)
  {
    OneAttempt(PLAIN, map[], content, Attempt(MANIFEST, None, Never));
    NoOthersFail(AfterAttempts(PLAIN, map[], content, [Attempt(MANIFEST, None, Never)]), Sha256(content), r);
  }

  lemma TwoAttempts(parse: Parser, content: Bytes, a: Attempt, b: Attempt)
    ensures AfterAttempts(parse, map[], content, [a, b])
      == AfterAttempt(parse, AfterAttempt(parse, map[], content, a), content, b)
  {
    assert [a] + [b] == [a, b];
    AttemptsSplit(parse, map[], content, [a], [b]);
    OneAttempt(parse, map[], content, a);
    OneAttempt(parse, AfterAttempt(parse, map[], content, a), content, b);
  }
}
