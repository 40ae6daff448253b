/**
  The resumable NAV download.  A part file and a metadata file survive between attempts; the
  remote file may be replaced at any time; an attempt may be cut short, by the wall-clock
  deadline or by a kill, before any of its file operations.
 */
module NavDownload {
  import opened Prelude

  type Url = nat

  /** The text of an ETag or Last-Modified header. */
  type Validator = nat

  const MAX_NAV_GZIP_BYTES: nat := 30 * 1024 * 1024
  const NAV_CHUNK_BYTES: nat := 64 * 1024

  /** Strong validators name one representation each (RFC 9110 section 8.8.1). */
  type Versions = (Url, Validator) -> Bytes

  /** The metadata file; absent fields are missing or of the wrong type. */
  datatype Metadata = Unreadable | Readable(url: Option<Url>, validator: Option<Validator>, total: Option<int>)

  datatype EntityTag = Strong(tag: Validator) | Weak(tag: Validator)

  datatype ContentRange = ContentRange(first: nat, last: nat, total: nat)

  datatype Length = NotGiven | NotANumber | Given(bytes: int)

  /** A response: headers, and a body whose i-th read may hand over at most `pace(i)` bytes.  `version`
      is the complete representation the server selected; the code never sees it. */
  datatype Reply = Reply(
    html: bool, status: int,
    etag: Option<EntityTag>, lastModified: Option<Validator>,
    range: Option<ContentRange>, length: Length,
    body: Bytes, pace: nat -> nat,
    version: Bytes)

  datatype Error =
    | Unreachable | HtmlPage | UnexpectedStatus | InvalidContentRange | ResumeMismatch | InvalidLength | SizeTooLarge
    | ExceedsMaximum | ExceedsContentLength | Truncated

  datatype Outcome = Returned(bytes: Bytes) | Failed(error: Error) | Interrupted

  /** Weak entity tags cannot guarantee a byte-for-byte resume. */
  function ValidatorOf(r: Reply): Option<Validator> {
    match r.etag
    case Some(Strong(tag)) => Some(tag)
    case _ => r.lastModified
  }

  /** A server that follows RFC 9110: the body is (a beginning of) what its headers announce. */
  ghost predicate Honest(versions: Versions, url: Url, r: Reply) {
    && (ValidatorOf(r).Some? ==> r.version == versions(url, ValidatorOf(r).value))
    && (r.status == 206 && r.range.Some? ==>
          var c := r.range.value;
          c.total == |r.version| && (c.first <= c.last < c.total ==> r.body <= r.version[c.first..c.last + 1]))
    && (r.status == 200 ==> r.body <= r.version && (r.length.Given? ==> r.length.bytes == |r.version|))
  }

  /** Metadata that the resume check accepts for `url`. */
  predicate Usable(m: Metadata, url: Url) {
    m.Readable? && m.url == Some(url) && m.validator.Some? && m.total.Some? && 0 < m.total.value <= MAX_NAV_GZIP_BYTES
  }

  /** Part and metadata together are a beginning of the one version the metadata names. */
  ghost predicate StagedOk(versions: Versions, part: Option<Bytes>, meta: Option<Metadata>) {
    part.Some? && meta.Some? && meta.value.Readable? && meta.value.url.Some?
    && Usable(meta.value, meta.value.url.value) ==>
      var whole := versions(meta.value.url.value, meta.value.validator.value);
      part.value <= whole && meta.value.total.value == |whole|
  }

  /** Whatever servers send, staged bytes never exceed the recorded total, nor the limit. */
  predicate SizesOk(part: Option<Bytes>, meta: Option<Metadata>) {
    && (part.Some? && meta.Some? && meta.value.Readable? && meta.value.total.Some? && meta.value.total.value > 0 ==>
          |part.value| <= meta.value.total.value <= MAX_NAV_GZIP_BYTES)
    && (part.Some? ==> |part.value| <= MAX_NAV_GZIP_BYTES + 1)
  }

  predicate Resumable(part: Option<Bytes>, meta: Option<Metadata>, url: Url) {
    part.Some? && meta.Some? && Usable(meta.value, url) && 0 < |part.value| <= meta.value.total.value
  }

  /** Everything is already staged: the next attempt needs no transfer. */
  predicate Complete(part: Option<Bytes>, meta: Option<Metadata>, url: Url) {
    Resumable(part, meta, url) && |part.value| == meta.value.total.value
  }

  /** What an attempt hands to its caller: the staged version; or, after a 206, the version it resumed
      up to the last byte of the range; or the body of a 200, checked against its announced length. */
  ghost predicate Delivered(versions: Versions, url: Url, part: Option<Bytes>, meta: Option<Metadata>,
                            r: Option<Reply>, bytes: Bytes) {
    if Complete(part, meta, url) then bytes == versions(url, meta.value.validator.value)
    else if r.None? then false
    else if r.value.status == 206 then
      && Resumable(part, meta, url) && r.value.range.Some? && ValidatorOf(r.value) == meta.value.validator
      && r.value.version == versions(url, meta.value.validator.value)
      && r.value.range.value.last < |r.value.version|
      && bytes == r.value.version[..r.value.range.value.last + 1]
    else
      && r.value.status == 200 && bytes == r.value.body
      && (r.value.length.Given? ==> bytes == r.value.version)
  }

  /** How many bytes the i-th read hands over: at least one as long as any are left. */
  function ReadSize(r: Reply, i: nat, size: nat, left: nat): (n: nat)
    requires size > 0
    ensures n <= size && n <= left && (n == 0 <==> left == 0)
  {
    var most := if size < left then size else left;
    if r.pace(i) < 1 then (if most < 1 then most else 1) else if r.pace(i) < most then r.pace(i) else most
  }

  // ---------------------------------------------------------------- an attempt that is not cut short

  /** How a transfer of `body` onto `before` ends. */
  function TransferOutcome(before: Bytes, body: Bytes, remaining: Option<nat>): Outcome {
    match remaining
    case Some(n) =>
      if |body| == n then Returned(before + body)
      else if |body| < n then Failed(Truncated)
      else Failed(ExceedsContentLength)
    case None => if |body| <= MAX_NAV_GZIP_BYTES then Returned(before + body) else Failed(ExceedsMaximum)
  }

  /** What it leaves in the part file: never more than announced, nor one byte past the limit. */
  function TransferPart(before: Bytes, body: Bytes, remaining: Option<nat>): Bytes {
    var most := match remaining case Some(n) => n case None => MAX_NAV_GZIP_BYTES + 1;
    before + (if most < |body| then body[..most] else body)
  }

  /** The outcome of an attempt and the staging files it leaves. */
  datatype Effect = Effect(outcome: Outcome, part: Option<Bytes>, meta: Option<Metadata>)

  /** A 206 that continues the staged bytes of the version the metadata names. */
  predicate Continues(staged: nat, known: Metadata, r: Reply) {
    && r.range.Some? && known.Readable?
    && var c := r.range.value;
      c.first == staged && c.first <= c.last < c.total <= MAX_NAV_GZIP_BYTES
      && known.total == Some(c.total) && known.validator == ValidatorOf(r)
  }

  function ResumeEffect(part: Bytes, known: Metadata, r: Reply): Effect {
    if r.range.None? then Effect(Failed(InvalidContentRange), None, None)
    else if !Continues(|part|, known, r) then Effect(Failed(ResumeMismatch), None, None)
    else
      var n := r.range.value.last - r.range.value.first + 1;
      Effect(TransferOutcome(part, r.body, Some(n)), Some(TransferPart(part, r.body, Some(n))), Some(known))
  }

  function RestartEffect(url: Url, r: Reply): Effect {
    match r.length
    case NotANumber => Effect(Failed(InvalidLength), None, None)
    case NotGiven => Effect(TransferOutcome([], r.body, None), Some(TransferPart([], r.body, None)), None)
    case Given(n) =>
      if !(0 < n <= MAX_NAV_GZIP_BYTES) then Effect(Failed(SizeTooLarge), None, None)
      else
        Effect(TransferOutcome([], r.body, Some(n)), Some(TransferPart([], r.body, Some(n))),
               if ValidatorOf(r).Some? then Some(Readable(Some(url), ValidatorOf(r), Some(n))) else None)
  }

  function DownloadEffect(part: Option<Bytes>, meta: Option<Metadata>, url: Url, r: Option<Reply>): Effect {
    if Complete(part, meta, url) then Effect(Returned(part.value), part, meta)
    else
      var resumable := Resumable(part, meta, url);
      var (keptPart, keptMeta) := if resumable then (part, meta) else (None, None);
      if r.None? then Effect(Failed(Unreachable), keptPart, keptMeta)
      else if r.value.html then Effect(Failed(HtmlPage), None, None)
      else if r.value.status == 200 then RestartEffect(url, r.value)
      else if r.value.status != 206 then Effect(Failed(UnexpectedStatus), keptPart, keptMeta)
      else if resumable then ResumeEffect(part.value, meta.value, r.value)
      else Effect(Failed(if r.value.range.None? then InvalidContentRange else ResumeMismatch), None, None)
  }

  /** File operations that always suffice for an attempt. */
  function Enough(r: Option<Reply>): nat {
    6 + if r.Some? then |r.value.body| else 0
  }

  /** The caller's judgement of returned bytes: accepted, refused with an exception it handles, or not handled. */
  datatype Verdict = Accepted | Refused | Unhandled

  /** The files of one product. */
  datatype Files = Files(part: Option<Bytes>, meta: Option<Metadata>, promoted: Option<Bytes>)

  /** A missing reply, or a 206 that continues the staged bytes. */
  predicate Carries(part: Option<Bytes>, meta: Option<Metadata>, url: Url, r: Option<Reply>) {
    && Resumable(part, meta, url) && !Complete(part, meta, url)
    && (r.Some? ==> !r.value.html && r.value.status == 206 && Continues(|part.value|, meta.value, r.value))
  }

  /** An attempt with such a reply never shortens the part, wherever it is cut off; only bytes that are handed
      over whole are cleared. */
  predicate KeepsPart(f: Files, g: Files, url: Url, r: Option<Reply>) {
    Carries(f.part, f.meta, url, r) ==>
      && (g.part.Some? ==> f.part.value <= g.part.value)
      && (!DownloadEffect(f.part, f.meta, url, r).outcome.Returned? ==> g.part.Some? && g.meta == f.meta)
  }

  /** An attempt and what its caller makes of it. */
  function AcquireEffect(f: Files, url: Url, r: Option<Reply>, judge: Bytes -> Verdict): Files {
    var e := DownloadEffect(f.part, f.meta, url, r);
    if !e.outcome.Returned? then Files(e.part, e.meta, f.promoted)
    else
      match judge(e.outcome.bytes)
      case Accepted => Files(None, None, Some(e.outcome.bytes))
      case Refused => Files(None, None, f.promoted)
      case Unhandled => Files(e.part, e.meta, f.promoted)
  }

  // ---------------------------------------------------------------- the cache directory

  /** The cache directory's files for one product. */
  class NavCache {
    var part: Option<Bytes>
    var meta: Option<Metadata>
    var promoted: Option<Bytes>
    /** File operations left before this attempt is cut short. */
    var fuel: nat

    function Current(): Files
      reads this
    {
      Files(part, meta, promoted)
    }

    constructor ()
      ensures Current() == Files(None, None, None)
    {
      part, meta, promoted, fuel := None, None, None, 0;
    }

    method Spend() returns (alive: bool)
      modifies this`fuel
      ensures alive <==> old(fuel) > 0
      ensures fuel == if alive then old(fuel) - 1 else 0
    {
      alive := fuel > 0;
      if alive {
        fuel := fuel - 1;
      }
    }

    /** Unlinks the part, then the metadata. */
    method Discard() returns (alive: bool)
      modifies this`part, this`meta, this`fuel
      ensures (part == old(part) || part.None?) && (meta == old(meta) || (meta.None? && part.None?))
      ensures alive <==> old(fuel) >= 2
      ensures alive ==> part.None? && meta.None? && fuel == old(fuel) - 2
    {
      alive := Spend();
      if alive {
        part := None;
        alive := Spend();
        if alive {
          meta := None;
        }
      }
    }

    /** The resume check: how many bytes are staged, discarding exactly what cannot be resumed. */
    method ResumePoint(url: Url) returns (alive: bool, offset: nat, known: Option<Metadata>)
      modifies this`part, this`meta, this`fuel
      ensures (part == old(part) || part.None?) && (meta == old(meta) || (meta.None? && part.None?))
      ensures offset > 0 <==> Resumable(old(part), old(meta), url)
      ensures offset > 0 ==> alive && part == old(part) && meta == old(meta) == known && offset == |part.value|
      ensures offset > 0 ==> fuel == old(fuel)
      ensures offset == 0 ==> (alive <==> old(fuel) >= 2)
      ensures alive && offset == 0 ==> known.None? && part.None? && meta.None? && fuel == old(fuel) - 2
    {
      offset, known := 0, None;
      if part.Some? && meta.Some? {
        var m, size := meta.value, |part.value|;
        if Usable(m, url) && 0 < size <= m.total.value {
          return true, size, Some(m);
        }
      }
      alive := Discard();
    }

    /**
      The transfer loop, appending to the part file.  It is cut short only when it runs out of file
      operations, each of which has staged at least one byte; otherwise it ends as specified.
     */
    method Transfer(r: Reply, offset: nat, remaining: Option<nat>) returns (outcome: Outcome)
      requires part.Some? && |part.value| == offset
      requires remaining.Some? ==> offset + remaining.value <= MAX_NAV_GZIP_BYTES
      requires remaining.None? ==> offset == 0
      modifies this`part, this`fuel
      ensures part.Some? && exists n :: 0 <= n <= |r.body| && part.value == old(part.value) + r.body[..n]
      ensures remaining.Some? ==> |part.value| <= offset + remaining.value
      ensures |part.value| <= MAX_NAV_GZIP_BYTES + 1
      ensures outcome.Interrupted? ==> old(fuel) < |r.body| && |part.value| >= offset + old(fuel)
      ensures !outcome.Interrupted? ==> outcome == TransferOutcome(old(part.value), r.body, remaining)
      ensures !outcome.Interrupted? ==> part.value == TransferPart(old(part.value), r.body, remaining)
      ensures fuel + |r.body| >= old(fuel)
    {
      var transferred := 0;
      var i := 0;
      ghost var start := part.value;
      assert start + r.body[..0] == start;
      while true
        invariant 0 <= transferred <= |r.body| && part == Some(start + r.body[..transferred])
        invariant remaining.Some? ==> transferred <= remaining.value
        invariant offset + transferred <= MAX_NAV_GZIP_BYTES
        invariant fuel + transferred >= old(fuel)
        decreases |r.body| - transferred
      {
        var cap := MAX_NAV_GZIP_BYTES + 1 - offset - transferred;
        if cap <= 0 {
          return Failed(ExceedsMaximum);
        }
        if remaining.Some? && transferred == remaining.value {
          if |r.body| > transferred {
            return Failed(ExceedsContentLength);
          }
          break;
        }
        var size := if NAV_CHUNK_BYTES < cap then NAV_CHUNK_BYTES else cap;
        if remaining.Some? && remaining.value - transferred < size {
          size := remaining.value - transferred;
        }
        var n := ReadSize(r, i, size, |r.body| - transferred);
        if n == 0 {
          break;
        }
        var alive := Spend();
        if !alive {
          return Interrupted;
        }
        part := Some(part.value + r.body[transferred..transferred + n]);
        assert part.value == start + r.body[..transferred + n];
        transferred, i := transferred + n, i + 1;
        if offset + transferred > MAX_NAV_GZIP_BYTES {
          return Failed(ExceedsMaximum);
        }
      }
      assert r.body[..|r.body|] == r.body;
      if remaining.Some? && transferred != remaining.value {
        return Failed(Truncated);
      }
      return Returned(part.value);
    }

    /** The body of a 206 that continues the staged part. */
    method Resume(ghost versions: Versions, url: Url, r: Reply, known: Metadata) returns (outcome: Outcome)
      requires part.Some? && meta == Some(known) && Resumable(part, meta, url) && !Complete(part, meta, url)
      requires r.status == 206 && SizesOk(part, meta)
      modifies this`part, this`meta, this`fuel
      ensures SizesOk(part, meta)
      ensures StagedOk(versions, old(part), old(meta)) && Honest(versions, url, r) ==> StagedOk(versions, part, meta)
      ensures outcome.Interrupted? ==> old(fuel) < 2 + |r.body|
      ensures !outcome.Interrupted? ==> Effect(outcome, part, meta) == ResumeEffect(old(part).value, known, r)
      ensures Continues(|old(part).value|, known, r) ==>
        part.Some? && old(part).value <= part.value && meta == old(meta)
      ensures Continues(|old(part).value|, known, r) && outcome.Interrupted? ==>
        |part.value| >= |old(part).value| + old(fuel)
      ensures fuel + 2 + |r.body| >= old(fuel)
    {
      var offset := |part.value|;
      if r.range.None? {
        var alive := Discard();
        return if alive then Failed(InvalidContentRange) else Interrupted;
      }
      var c := r.range.value;
      if c.first != offset || c.last < c.first || c.total <= c.last || c.total > MAX_NAV_GZIP_BYTES
         || known.total != Some(c.total) || known.validator != ValidatorOf(r) {
        var alive := Discard();
        return if alive then Failed(ResumeMismatch) else Interrupted;
      }
      ghost var staged := part.value;
      outcome := Transfer(r, offset, Some(c.last - c.first + 1));
      if StagedOk(versions, old(part), old(meta)) && Honest(versions, url, r) {
        PrefixContinues(staged, r.version, c, r.body, part.value);
      }
    }

    /** A 200: whatever was staged is void; metadata, when possible, is written before the first byte. */
    method Restart(ghost versions: Versions, url: Url, r: Reply) returns (outcome: Outcome)
      requires r.status == 200 && SizesOk(part, meta)
      modifies this`part, this`meta, this`fuel
      ensures SizesOk(part, meta)
      ensures StagedOk(versions, old(part), old(meta)) && Honest(versions, url, r) ==> StagedOk(versions, part, meta)
      ensures outcome.Interrupted? ==> old(fuel) < 4 + |r.body|
      ensures !outcome.Interrupted? ==> Effect(outcome, part, meta) == RestartEffect(url, r)
      ensures outcome.Interrupted? && old(fuel) >= 4 ==> part.Some? && |part.value| + 4 >= old(fuel)
      ensures part.Some? && part != old(part) && part.value != [] && r.length.Given? && ValidatorOf(r).Some? ==>
                Resumable(part, meta, url) && meta.value.validator == ValidatorOf(r)
      ensures fuel + 4 + |r.body| >= old(fuel)
    {
      var alive := Discard();
      if !alive {
        return Interrupted;
      }
      if r.length.NotANumber? {
        return Failed(InvalidLength);
      }
      var remaining: Option<nat> := None;
      if r.length.Given? {
        if !(0 < r.length.bytes <= MAX_NAV_GZIP_BYTES) {
          return Failed(SizeTooLarge);
        }
        remaining := Some(r.length.bytes);
        if ValidatorOf(r).Some? {
          alive := Spend();
          if !alive {
            return Interrupted;
          }
          meta := Some(Readable(Some(url), ValidatorOf(r), Some(r.length.bytes)));
        }
      }
      alive := Spend();
      if !alive {
        return Interrupted;
      }
      part := Some([]);
      outcome := Transfer(r, 0, remaining);
      assert [] + r.body == r.body;
    }

    /**
      One attempt.  `r` is the response, if any arrived.  Cut off anywhere, staging stays a beginning of one
      version; not cut off, and with enough file operations it never is, the attempt has exactly the
      specified outcome and leaves exactly the specified files.
     */
    method Download(ghost versions: Versions, url: Url, r: Option<Reply>) returns (outcome: Outcome)
      requires SizesOk(part, meta)
      modifies this`part, this`meta, this`fuel
      ensures SizesOk(part, meta)
      ensures StagedOk(versions, old(part), old(meta)) && (r.Some? ==> Honest(versions, url, r.value)) ==>
                StagedOk(versions, part, meta)
      ensures outcome.Interrupted? ==> old(fuel) < Enough(r)
      ensures !outcome.Interrupted? ==> Effect(outcome, part, meta) == DownloadEffect(old(part), old(meta), url, r)
      ensures Complete(old(part), old(meta), url) ==>
        outcome == Returned(old(part).value) && part == old(part) && meta == old(meta)
      ensures Carries(old(part), old(meta), url, r) ==>
        part.Some? && old(part).value <= part.value && meta == old(meta)
      ensures outcome.Returned? ==> |outcome.bytes| <= MAX_NAV_GZIP_BYTES
      ensures outcome.Returned? && StagedOk(versions, old(part), old(meta))
              && (r.Some? ==> Honest(versions, url, r.value)) ==>
                Delivered(versions, url, old(part), old(meta), r, outcome.bytes)
      ensures outcome == Failed(ExceedsMaximum) ==>
                r.Some? && r.value.status == 200 && r.value.length.NotGiven? && |r.value.body| > MAX_NAV_GZIP_BYTES
      ensures fuel + Enough(r) >= old(fuel)
    {
      hide TransferOutcome, TransferPart, Continues, SizesOk, Honest, StagedOk, Delivered;
      ReturnedWithinLimit(url, part, meta, r);
      SizeCapExactly(url, part, meta, r);
      if StagedOk(versions, part, meta) && (r.Some? ==> Honest(versions, url, r.value)) {
        ReturnedIsDelivered(versions, url, part, meta, r);
      }
      ClearingIsSafe(versions, part, meta);
      var alive, offset, known := ResumePoint(url);
      if !alive {
        return Interrupted;
      }
      if offset > 0 && offset == known.value.total.value {
        return Returned(part.value);
      }
      if r.None? {
        return Failed(Unreachable);
      }
      if r.value.html {
        ClearingIsSafe(versions, part, meta);
        alive := Discard();
        return if alive then Failed(HtmlPage) else Interrupted;
      }
      if r.value.status != 200 && r.value.status != 206 {
        return Failed(UnexpectedStatus);
      }
      if r.value.status == 206 {
        if offset > 0 {
          outcome := Resume(versions, url, r.value, known.value);
        } else {
          ClearingIsSafe(versions, part, meta);
          alive := Discard();
          outcome := if !alive then Interrupted
                     else if r.value.range.None? then Failed(InvalidContentRange) else Failed(ResumeMismatch);
        }
      } else {
        outcome := Restart(versions, url, r.value);
      }
    }

    /**
      An attempt together with its caller: only accepted bytes are promoted.  With enough file operations
      the files afterwards are exactly as specified.
     */
    method Acquire(ghost versions: Versions, url: Url, r: Option<Reply>, judge: Bytes -> Verdict)
      requires SizesOk(part, meta)
      modifies this
      ensures SizesOk(part, meta)
      ensures StagedOk(versions, old(part), old(meta)) && (r.Some? ==> Honest(versions, url, r.value)) ==>
                StagedOk(versions, part, meta)
      ensures old(fuel) >= Enough(r) + 3 ==> Current() == AcquireEffect(old(Current()), url, r, judge)
      ensures Complete(old(part), old(meta), url) && judge(old(part).value).Unhandled? ==>
        Current() == old(Current())
      ensures KeepsPart(old(Current()), Current(), url, r)
      ensures promoted != old(promoted) ==>
        promoted.Some? && judge(promoted.value).Accepted?
        && DownloadEffect(old(part), old(meta), url, r).outcome == Returned(promoted.value)
        && |promoted.value| <= MAX_NAV_GZIP_BYTES
      ensures promoted != old(promoted) && StagedOk(versions, old(part), old(meta))
              && (r.Some? ==> Honest(versions, url, r.value)) ==>
                Delivered(versions, url, old(part), old(meta), r, promoted.value)
    {
      hide Delivered, DownloadEffect, SizesOk, Honest, StagedOk;
      var outcome := Download(versions, url, r);
      if outcome.Returned? {
        match judge(outcome.bytes)
        case Accepted =>
          var alive := Spend();
          if alive {
            promoted := Some(outcome.bytes);
            ClearingIsSafe(versions, part, meta);
            alive := Discard();
          }
        case Refused =>
          ClearingIsSafe(versions, part, meta);
          var alive := Discard();
        case Unhandled =>
      }
    }
  }

  /** Unlinking the part, and then the metadata, never makes staging worse. */
  lemma ClearingIsSafe(versions: Versions, part: Option<Bytes>, meta: Option<Metadata>)
    ensures StagedOk(versions, None, meta) && StagedOk(versions, None, None)
    ensures SizesOk(None, meta) && SizesOk(None, None)
  {
  }

  lemma PrefixContinues(staged: Bytes, version: Bytes, c: ContentRange, body: Bytes, now: Bytes)
    requires staged <= version && |staged| == c.first <= c.last < c.total == |version|
    requires body <= version[c.first..c.last + 1]
    requires exists n :: 0 <= n <= |body| && now == staged + body[..n]
    ensures now <= version
    ensures |body| == c.last - c.first + 1 ==> staged + body == version[..c.last + 1]
  {
    var n :| 0 <= n <= |body| && now == staged + body[..n];
    forall k | 0 <= k < |now| ensures now[k] == version[k] {
      if k >= |staged| {
        assert body[k - |staged|] == version[c.first..c.last + 1][k - |staged|];
      }
    }
  }

  // ---------------------------------------------------------------- what is handed over

  lemma ReturnedWithinLimit(url: Url, part: Option<Bytes>, meta: Option<Metadata>, r: Option<Reply>)
    ensures var o := DownloadEffect(part, meta, url, r).outcome; o.Returned? ==> |o.bytes| <= MAX_NAV_GZIP_BYTES
  {
  }

  /** Whatever an attempt returns is what the staged version or the reply says. */
  lemma ReturnedIsDelivered(versions: Versions, url: Url, part: Option<Bytes>, meta: Option<Metadata>, r: Option<Reply>)
    requires StagedOk(versions, part, meta) && (r.Some? ==> Honest(versions, url, r.value))
    ensures var o := DownloadEffect(part, meta, url, r).outcome;
      o.Returned? ==> Delivered(versions, url, part, meta, r, o.bytes)
  {
    var o := DownloadEffect(part, meta, url, r).outcome;
    if o.Returned? && !Complete(part, meta, url) {
      if r.value.status == 206 {
        var c := r.value.range.value;
        assert part.value + r.value.body[..|r.value.body|] == part.value + r.value.body;
        PrefixContinues(part.value, r.value.version, c, r.value.body, part.value + r.value.body);
      } else {
        assert [] + r.value.body == r.value.body;
      }
    }
  }

  /** The size cap can only fire on a 200 of unknown length whose body is too long. */
  lemma SizeCapExactly(url: Url, part: Option<Bytes>, meta: Option<Metadata>, r: Option<Reply>)
    ensures DownloadEffect(part, meta, url, r).outcome == Failed(ExceedsMaximum) <==>
      !Complete(part, meta, url) && r.Some? && !r.value.html && r.value.status == 200
      && r.value.length.NotGiven? && |r.value.body| > MAX_NAV_GZIP_BYTES
  {
  }

  /**
    A 206 for a resumable part is handed over exactly when it continues the part with a whole range.  What
    the caller then gets is the whole version if and only if the range reached its last byte, and else a
    strict beginning of it.
   */
  lemma ResumedWholeExactly(versions: Versions, url: Url, part: Option<Bytes>, meta: Option<Metadata>, r: Reply)
    requires StagedOk(versions, part, meta) && Honest(versions, url, r) && r.status == 206 && !r.html
    requires Resumable(part, meta, url) && !Complete(part, meta, url)
    ensures var o := DownloadEffect(part, meta, url, Some(r)).outcome;
      o.Returned? <==>
        Continues(|part.value|, meta.value, r) && |r.body| == r.range.value.last - r.range.value.first + 1
    ensures var o := DownloadEffect(part, meta, url, Some(r)).outcome;
      var version := versions(url, meta.value.validator.value);
      o.Returned? ==> o.bytes <= version && (o.bytes == version <==> r.range.value.last + 1 == |version|)
  {
    var o := DownloadEffect(part, meta, url, Some(r)).outcome;
    if o.Returned? {
      ReturnedIsDelivered(versions, url, part, meta, Some(r));
      assert r.version[..|r.version|] == r.version;
    }
  }

  /** Two of three bytes: one staged, and a 206 for the second only. */
  const SHORT_RANGE: Reply :=
    Reply(false, 206, Some(Strong(5)), None, Some(ContentRange(1, 1, 3)), NotGiven, [8], _ => 1, [7, 8, 9])

  /** Such a 206 exists: an honest server's short range is handed over as a strict beginning. */
  lemma ShortRangeReturnsPrefix(url: Url)
    ensures var versions: Versions := (u, v) => [7, 8, 9];
      var part, meta := Some([7]), Some(Readable(Some(url), Some(5), Some(3)));
      && StagedOk(versions, part, meta) && Honest(versions, url, SHORT_RANGE)
      && DownloadEffect(part, meta, url, Some(SHORT_RANGE)).outcome == Returned([7, 8])
  {
    assert [7, 8, 9][1..2] == [8];
    assert [7] + [8] == [7, 8];
  }

  // ---------------------------------------------------------------- an exception the caller does not handle

  /** After bytes were returned, staging is cleared exactly when the caller handles its own verdict. */
  lemma ClearedUnlessUnhandled(f: Files, url: Url, r: Option<Reply>, judge: Bytes -> Verdict)
    requires DownloadEffect(f.part, f.meta, url, r).outcome.Returned?
    ensures var g, bytes := AcquireEffect(f, url, r, judge), DownloadEffect(f.part, f.meta, url, r).outcome.bytes;
      g.part.None? <==> !judge(bytes).Unhandled?
  {
  }

  /** A complete part with such bytes stays: no reply is even asked for. */
  lemma UnhandledIsStuck(f: Files, url: Url, r: Option<Reply>, judge: Bytes -> Verdict)
    requires Complete(f.part, f.meta, url) && judge(f.part.value).Unhandled?
    ensures AcquireEffect(f, url, r, judge) == f
  {
  }

  /** No reply to any later attempt changes the files. */
  ghost predicate Blocked(f: Files, url: Url, judge: Bytes -> Verdict) {
    forall later: Option<Reply> :: AcquireEffect(f, url, later, judge) == f
  }

  /** A reply that, handed over, leaves a complete part: its body ends the version, and this is on record. */
  predicate CompletesPart(r: Reply) {
    || (r.status == 200 && r.length.Given? && ValidatorOf(r).Some?)
    || (r.status == 206 && r.range.Some? && r.range.value.last + 1 == r.range.value.total)
  }

  const HTML_PAGE: Reply := Reply(true, 200, None, None, None, NotGiven, [], _ => 1, [])

  /**
    After bytes were handed over that raise an exception the caller does not handle, the product is
    blocked if and only if the part was complete before or the reply completed it.
   */
  lemma UnhandledSticksExactly(f: Files, url: Url, r: Option<Reply>, judge: Bytes -> Verdict)
    requires DownloadEffect(f.part, f.meta, url, r).outcome.Returned?
    requires judge(DownloadEffect(f.part, f.meta, url, r).outcome.bytes).Unhandled?
    ensures var g := AcquireEffect(f, url, r, judge);
      && (Complete(g.part, g.meta, url) <==> Complete(f.part, f.meta, url) || (r.Some? && CompletesPart(r.value)))
      && (Complete(g.part, g.meta, url) ==> judge(g.part.value).Unhandled?)
      && (Blocked(g, url, judge) <==> Complete(g.part, g.meta, url))
  {
    var g := AcquireEffect(f, url, r, judge);
    if !Complete(f.part, f.meta, url) {
      assert [] + r.value.body == r.value.body;
    }
    if !Complete(g.part, g.meta, url) {
      assert AcquireEffect(g, url, Some(HTML_PAGE), judge).part == None;
    }
  }

  /** The whole of `body`, with its length and a validator. */
  function WholeReply(body: Bytes, version: Validator): Reply {
    Reply(false, 200, Some(Strong(version)), None, None, Given(|body|), body, _ => 1, body)
  }

  /** The bytes of `body` from `k` on. */
  function RestReply(body: Bytes, k: nat, version: Validator): Reply
    requires k < |body|
  {
    Reply(false, 206, Some(Strong(version)), None, Some(ContentRange(k, |body| - 1, |body|)), NotGiven, body[k..],
          _ => 1, body)
  }

  /** From an empty directory one honest transfer of such a body blocks the product. */
  lemma CorruptTransferBlocks(url: Url, body: Bytes, version: Validator, judge: Bytes -> Verdict)
    requires 0 < |body| <= MAX_NAV_GZIP_BYTES && judge(body).Unhandled?
    ensures Honest((u, v) => body, url, WholeReply(body, version))
    ensures var g := AcquireEffect(Files(None, None, None), url, Some(WholeReply(body, version)), judge);
      g.part == Some(body) && Blocked(g, url, judge)
  {
    var f, r := Files(None, None, None), Some(WholeReply(body, version));
    assert [] + body == body;
    UnhandledSticksExactly(f, url, r, judge);
  }

  /** So does the honest rest of a transfer that was cut off behind any of its bytes. */
  lemma CorruptResumeBlocks(url: Url, body: Bytes, k: nat, version: Validator, judge: Bytes -> Verdict)
    requires 0 < k < |body| <= MAX_NAV_GZIP_BYTES && judge(body).Unhandled?
    ensures Honest((u, v) => body, url, RestReply(body, k, version))
    ensures var f := Files(Some(body[..k]), Some(Readable(Some(url), Some(version), Some(|body|))), None);
      var g := AcquireEffect(f, url, Some(RestReply(body, k, version)), judge);
      StagedOk((u, v) => body, f.part, f.meta) && g.part == Some(body) && Blocked(g, url, judge)
  {
    var f := Files(Some(body[..k]), Some(Readable(Some(url), Some(version), Some(|body|))), None);
    var r := Some(RestReply(body, k, version));
    assert body[..k] + body[k..] == body;
    assert body[k..|body| - 1 + 1] == body[k..];
    UnhandledSticksExactly(f, url, r, judge);
  }

  /** Ten bytes of gzip header, then a deflate block of the reserved type (RFC 1951 section 3.2.3). */
  const RESERVED_BLOCK: Bytes := [0x1F, 0x8B, 8, 0, 0, 0, 0, 0, 0, 255, 7]

  /** That input, under a reader that reports the reserved block as a deflate error. */
  lemma ReservedBlockBlocks(url: Url, version: Validator, gunzip: Bytes -> GzipStream, valid: Bytes -> bool)
    requires gunzip(RESERVED_BLOCK) == GzipStream([], BadDeflate)
    ensures var judge := JudgeOf(gunzip, valid);
      Blocked(AcquireEffect(Files(None, None, None), url, Some(WholeReply(RESERVED_BLOCK, version)), judge), url, judge)
  {
    UnhandledExactly(gunzip, valid, RESERVED_BLOCK);
    CorruptTransferBlocks(url, RESERVED_BLOCK, version, JudgeOf(gunzip, valid));
  }

  // ---------------------------------------------------------------- runs of attempts

  datatype Attempt = Attempt(reply: Option<Reply>, fuel: nat)

  /** Where promoted bytes may come from: a beginning of one version, or the body of a 200 of the plan. */
  ghost predicate Sourced(versions: Versions, url: Url, plan: seq<Attempt>, bytes: Bytes) {
    (bytes != [] && exists v :: bytes <= versions(url, v))
    || exists k :: 0 <= k < |plan| && plan[k].reply.Some? && plan[k].reply.value.status == 200
                   && bytes == plan[k].reply.value.body
  }

  lemma DeliveredIsSourced(versions: Versions, url: Url, part: Option<Bytes>, meta: Option<Metadata>,
                           plan: seq<Attempt>, k: nat, bytes: Bytes)
    requires k < |plan| && Delivered(versions, url, part, meta, plan[k].reply, bytes)
    requires StagedOk(versions, part, meta)
    ensures Sourced(versions, url, plan, bytes)
  {
    if Complete(part, meta, url) {
      assert bytes <= versions(url, meta.value.validator.value);
    } else if plan[k].reply.value.status == 206 {
      assert bytes <= versions(url, meta.value.validator.value);
      assert |bytes| == plan[k].reply.value.range.value.last + 1;
    }
  }

  /** What holds after every attempt. */
  ghost predicate FilesOk(versions: Versions, url: Url, plan: seq<Attempt>, judge: Bytes -> Verdict, f: Files) {
    && StagedOk(versions, f.part, f.meta) && SizesOk(f.part, f.meta)
    && (f.promoted.Some? ==> judge(f.promoted.value).Accepted? && |f.promoted.value| <= MAX_NAV_GZIP_BYTES)
    && (f.promoted.Some? ==> Sourced(versions, url, plan, f.promoted.value))
  }

  /**
    Any sequence of attempts, each cut short anywhere, against a remote file that may change between
    them.  After each one staging is a beginning of the version it names and a promoted file is
    accepted and sourced; every attempt with enough file operations has exactly the specified effect.
   */
  method RunAttempts(ghost versions: Versions, url: Url, plan: seq<Attempt>, judge: Bytes -> Verdict)
    returns (cache: NavCache, ghost trace: seq<Files>)
    requires forall k :: 0 <= k < |plan| && plan[k].reply.Some? ==> Honest(versions, url, plan[k].reply.value)
    ensures FilesOk(versions, url, plan, judge, cache.Current())
    ensures |trace| == |plan| + 1 && trace[0] == Files(None, None, None) && trace[|plan|] == cache.Current()
    ensures forall k :: 0 <= k <= |plan| ==> FilesOk(versions, url, plan, judge, trace[k])
    ensures forall k :: 0 <= k < |plan| ==> KeepsPart(trace[k], trace[k + 1], url, plan[k].reply)
    ensures forall k :: 0 <= k < |plan| && plan[k].fuel >= Enough(plan[k].reply) + 3 ==>
      trace[k + 1] == AcquireEffect(trace[k], url, plan[k].reply, judge)
  {
    hide KeepsPart, AcquireEffect, DownloadEffect, Delivered, StagedOk, SizesOk, Honest, Sourced, Enough;
    cache := new NavCache();
    trace := [cache.Current()];
    NothingStaged(versions, url, plan, judge);
    var k := 0;
    while k < |plan|
      invariant 0 <= k <= |plan| && fresh(cache)
      invariant |trace| == k + 1 && trace[0] == Files(None, None, None) && trace[k] == cache.Current()
      invariant forall j :: 0 <= j <= k ==> FilesOk(versions, url, plan, judge, trace[j])
      invariant forall j :: 0 <= j < k ==> KeepsPart(trace[j], trace[j + 1], url, plan[j].reply)
      invariant forall j :: 0 <= j < k && plan[j].fuel >= Enough(plan[j].reply) + 3 ==>
        trace[j + 1] == AcquireEffect(trace[j], url, plan[j].reply, judge)
    {
      ghost var f := cache.Current();
      cache.fuel := plan[k].fuel;
      cache.Acquire(versions, url, plan[k].reply, judge);
      PromotedIsSourced(versions, url, plan, judge, k, f, cache.Current());
      trace := trace + [cache.Current()];
      k := k + 1;
    }
  }

  lemma NothingStaged(versions: Versions, url: Url, plan: seq<Attempt>, judge: Bytes -> Verdict)
    ensures FilesOk(versions, url, plan, judge, Files(None, None, None))
  {
  }

  lemma PromotedIsSourced(versions: Versions, url: Url, plan: seq<Attempt>, judge: Bytes -> Verdict, k: nat,
                          f: Files, g: Files)
    requires k < |plan| && (plan[k].reply.Some? ==> Honest(versions, url, plan[k].reply.value))
    requires FilesOk(versions, url, plan, judge, f) && StagedOk(versions, g.part, g.meta) && SizesOk(g.part, g.meta)
    requires g.promoted != f.promoted ==> g.promoted.Some? && judge(g.promoted.value).Accepted?
    requires g.promoted != f.promoted ==>
      DownloadEffect(f.part, f.meta, url, plan[k].reply).outcome == Returned(g.promoted.value)
    ensures FilesOk(versions, url, plan, judge, g)
  {
    hide DownloadEffect, Delivered, SizesOk, Sourced;
    if g.promoted != f.promoted {
      ReturnedWithinLimit(url, f.part, f.meta, plan[k].reply);
      ReturnedIsDelivered(versions, url, f.part, f.meta, plan[k].reply);
      DeliveredIsSourced(versions, url, f.part, f.meta, plan, k, g.promoted.value);
    }
  }

  // ---------------------------------------------------------------- bounded expansion

  const MAX_NAV_EXPANDED_BYTES: nat := 80 * 1024 * 1024
  const BLOCK_BYTES: nat := 1024 * 1024

  /** How reading a gzip stream ends: cleanly, with EOFError or OSError, or with zlib.error. */
  datatype StreamEnd = Clean | BadGzip | BadDeflate

  /** What a gzip reader yields: decompressed bytes, then the end of the stream. */
  datatype GzipStream = GzipStream(content: Bytes, end: StreamEnd)

  /** All but the last are ValueErrors; zlib.error passes through uncaught. */
  datatype ExpandError = CompressedTooLarge | ExpandedTooLarge | Corrupt | ZlibError

  /** What the caller's except clause, for ValueError and OSError, makes of an expansion. */
  function VerdictOf(r: Result<Bytes, ExpandError>, valid: Bytes -> bool): Verdict {
    match r
    case Ok(plain) => if valid(plain) then Accepted else Refused
    case Err(e) => if e == ZlibError then Unhandled else Refused
  }

  /** The caller's judgement of returned bytes, through expansion and validation. */
  function JudgeOf(gunzip: Bytes -> GzipStream, valid: Bytes -> bool): Bytes -> Verdict {
    (bytes: Bytes) => VerdictOf(Expanded(|bytes|, gunzip(bytes)), valid)
  }

  /** Which bytes raise an exception that is not handled: those within both bounds whose deflate data is corrupt. */
  lemma UnhandledExactly(gunzip: Bytes -> GzipStream, valid: Bytes -> bool, bytes: Bytes)
    ensures JudgeOf(gunzip, valid)(bytes).Unhandled? <==>
      |bytes| <= MAX_NAV_GZIP_BYTES && |gunzip(bytes).content| <= MAX_NAV_EXPANDED_BYTES
      && gunzip(bytes).end.BadDeflate?
  {
    assert JudgeOf(gunzip, valid)(bytes) == VerdictOf(Expanded(|bytes|, gunzip(bytes)), valid);
  }

  /** The whole content exactly when both sizes are within bounds and the stream ends cleanly; an
      oversized stream is refused before its end is seen. */
  function Expanded(compressedSize: nat, stream: GzipStream): Result<Bytes, ExpandError> {
    if compressedSize > MAX_NAV_GZIP_BYTES then Err(CompressedTooLarge)
    else if |stream.content| > MAX_NAV_EXPANDED_BYTES then Err(ExpandedTooLarge)
    else
      match stream.end
      case Clean => Ok(stream.content)
      case BadGzip => Err(Corrupt)
      case BadDeflate => Err(ZlibError)
  }

  /** Expansion reads block by block and stops at the limit. */
  method BoundedDecompress(compressedSize: nat, stream: GzipStream) returns (r: Result<Bytes, ExpandError>)
    ensures r == Expanded(compressedSize, stream)
  {
    if compressedSize > MAX_NAV_GZIP_BYTES {
      return Err(CompressedTooLarge);
    }
    var out: Bytes := [];
    while true
      invariant |out| <= MAX_NAV_EXPANDED_BYTES && out <= stream.content
      decreases |stream.content| - |out|
    {
      var remaining := MAX_NAV_EXPANDED_BYTES - |out|;
      var size := if BLOCK_BYTES < remaining + 1 then BLOCK_BYTES else remaining + 1;
      var left := |stream.content| - |out|;
      if left == 0 && stream.end != Clean {
        return Err(if stream.end == BadGzip then Corrupt else ZlibError);
      }
      var block := stream.content[|out|..|out| + if size < left then size else left];
      if block == [] {
        assert |out| == |stream.content| && out == stream.content;
        return Ok(out);
      }
      if |block| > remaining {
        return Err(ExpandedTooLarge);
      }
      out := out + block;
    }
  }
}
