/**
  What a NAV transfer keeps from one attempt to the next: which failures leave the staged bytes alone, what
  a transfer that ends early adds to them, and that retried transfers arrive.
 */
module NavProgress {
  import opened Prelude
  import opened NavDownload

  // ---------------------------------------------------------------- what can be resumed

  /** A weak entity tag never names a version: then the time of last modification does, if there is one. */
  lemma ValidatorExactly(r: Reply, v: Validator)
    ensures ValidatorOf(r) == Some(v) <==>
      r.etag == Some(Strong(v)) || ((r.etag.None? || r.etag.value.Weak?) && r.lastModified == Some(v))
  {
  }

  /** Staged bytes are resumed exactly when their metadata is readable, of this address, names a version, and
      records a size of at most thirty mebibytes that is not smaller than what is staged. */
  lemma ResumableExactly(part: Option<Bytes>, meta: Option<Metadata>, url: Url)
    ensures Resumable(part, meta, url) <==>
      && part.Some? && part.value != [] && meta.Some? && meta.value.Readable? && meta.value.url == Some(url)
      && meta.value.validator.Some? && meta.value.total.Some?
      && |part.value| <= meta.value.total.value <= 31_457_280
    ensures Complete(part, meta, url) <==> Resumable(part, meta, url) && |part.value| == meta.value.total.value
  {
  }

  /** Expansion: thirty mebibytes in, eighty out, and how a stream within them ends. */
  lemma ExpandedExactly(size: nat, stream: GzipStream)
    ensures var r, small := Expanded(size, stream), size <= 31_457_280 && |stream.content| <= 83_886_080;
      && (r.Ok? <==> small && stream.end == Clean) && (r.Ok? ==> r.value == stream.content)
      && (r == Err(CompressedTooLarge) <==> size > 31_457_280)
      && (r == Err(ExpandedTooLarge) <==> size <= 31_457_280 && |stream.content| > 83_886_080)
      && (r == Err(Corrupt) <==> small && stream.end == BadGzip)
      && (r == Err(ZlibError) <==> small && stream.end == BadDeflate)
  {
  }

  // ---------------------------------------------------------------- what a failed attempt leaves

  /** No reply at all, and a reply of another status, leave resumable bytes as they were. */
  lemma FailureKeepsStaging(part: Option<Bytes>, meta: Option<Metadata>, url: Url, r: Reply)
    requires Resumable(part, meta, url) && !Complete(part, meta, url)
    ensures DownloadEffect(part, meta, url, None) == Effect(Failed(Unreachable), part, meta)
    ensures !r.html && r.status != 200 && r.status != 206 ==>
      DownloadEffect(part, meta, url, Some(r)) == Effect(Failed(UnexpectedStatus), part, meta)
  {
  }

  /** An HTML page, and a 206 that does not continue the staged bytes, discard them; nothing is returned. */
  lemma MismatchDiscards(part: Option<Bytes>, meta: Option<Metadata>, url: Url, r: Reply)
    requires !Complete(part, meta, url)
    requires r.html || (r.status == 206 && (r.range.None? || !Resumable(part, meta, url)
                                            || r.range.value.first != |part.value|
                                            || ValidatorOf(r) != meta.value.validator
                                            || meta.value.total != Some(r.range.value.total)))
    ensures var e := DownloadEffect(part, meta, url, Some(r));
      e.outcome.Failed? && e.part.None? && e.meta.None?
  {
  }

  /** A 206 whose body ends early adds what was delivered, and can be resumed. */
  lemma EarlyEndOf206(part: Option<Bytes>, meta: Option<Metadata>, url: Url, r: Reply)
    requires Resumable(part, meta, url) && !Complete(part, meta, url) && !r.html && r.status == 206 && r.range.Some?
    requires r.range.value.first == |part.value| <= r.range.value.last < r.range.value.total
    requires meta.value.total == Some(r.range.value.total) && ValidatorOf(r) == meta.value.validator
    requires |part.value| + |r.body| <= r.range.value.last
    ensures var e := DownloadEffect(part, meta, url, Some(r));
      e == Effect(Failed(Truncated), Some(part.value + r.body), meta) && Resumable(e.part, e.meta, url)
  {
  }

  /** A 200 with length and validator whose body ends early can be resumed from what was delivered. */
  lemma EarlyEndOf200(part: Option<Bytes>, meta: Option<Metadata>, url: Url, r: Reply)
    requires !Complete(part, meta, url) && !r.html && r.status == 200 && r.length.Given? && ValidatorOf(r).Some?
    requires 0 < |r.body| < r.length.bytes <= 31_457_280
    ensures var e := DownloadEffect(part, meta, url, Some(r));
      && e == Effect(Failed(Truncated), Some(r.body), Some(Readable(Some(url), ValidatorOf(r), Some(r.length.bytes))))
      && Resumable(e.part, e.meta, url)
  {
    assert [] + r.body == r.body;
  }

  /** A 200 is returned exactly when its length, if given, is within the limit and that of its body. */
  lemma ReturnedOf200(part: Option<Bytes>, meta: Option<Metadata>, url: Url, r: Reply)
    requires !Complete(part, meta, url) && !r.html && r.status == 200
    ensures DownloadEffect(part, meta, url, Some(r)).outcome == Returned(r.body) <==>
      match r.length
      case Given(n) => 0 < n <= 31_457_280 && |r.body| == n
      case NotGiven => |r.body| <= 31_457_280
      case NotANumber => false
    ensures DownloadEffect(part, meta, url, Some(r)).outcome.Returned? ==>
      DownloadEffect(part, meta, url, Some(r)).outcome == Returned(r.body)
  {
    assert [] + r.body == r.body;
  }

  // ---------------------------------------------------------------- progress

  function AfterReplies(f: Files, url: Url, replies: seq<Option<Reply>>, judge: Bytes -> Verdict): Files
    decreases |replies|
  {
    if replies == [] then f else AfterReplies(AcquireEffect(f, url, replies[0], judge), url, replies[1..], judge)
  }

  /** The answer to a resume request behind `m` bytes of `whole`: the rest, of which a beginning arrives. */
  predicate Continuation(whole: Bytes, v: Validator, m: nat, r: Reply) {
    && !r.html && r.status == 206 && ValidatorOf(r) == Some(v) && m < |whole|
    && r.range == Some(ContentRange(m, |whole| - 1, |whole|)) && r.body <= whole[m..]
  }

  function Received(r: Option<Reply>): nat {
    if r.Some? then |r.value.body| else 0
  }

  /** Replies to one attempt after the other: none, or a continuation, until the whole has arrived. */
  predicate Continuing(whole: Bytes, v: Validator, m: nat, replies: seq<Option<Reply>>)
    decreases |replies|
  {
    replies == []
    || (m < |whole| && (replies[0].Some? ==> Continuation(whole, v, m, replies[0].value))
        && Continuing(whole, v, m + Received(replies[0]), replies[1..]))
  }

  function Arrived(m: nat, replies: seq<Option<Reply>>): nat
    decreases |replies|
  {
    if replies == [] then m else Arrived(m + Received(replies[0]), replies[1..])
  }

  /** One attempt of that kind: the part grows by what was delivered; the whole is judged once it is there. */
  lemma OneContinuation(f: Files, url: Url, whole: Bytes, v: Validator, m: nat, r: Option<Reply>,
                        judge: Bytes -> Verdict)
    requires 0 < m < |whole| <= 31_457_280 && f.part == Some(whole[..m])
    requires f.meta == Some(Readable(Some(url), Some(v), Some(|whole|)))
    requires r.Some? ==> Continuation(whole, v, m, r.value)
    ensures var g, n := AcquireEffect(f, url, r, judge), m + Received(r);
      && n <= |whole|
      && (n < |whole| ==> g == Files(Some(whole[..n]), f.meta, f.promoted))
      && (n == |whole| && judge(whole).Accepted? ==> g == Files(None, None, Some(whole)))
      && (n == |whole| && judge(whole).Refused? ==> g == Files(None, None, f.promoted))
  {
    if r.Some? {
      var n := m + |r.value.body|;
      assert whole[..m] + r.value.body == whole[..n];
      assert n == |whole| ==> whole[..n] == whole;
    } else {
      FailureKeepsStaging(f.part, f.meta, url, HTML_PAGE);
    }
  }

  /**
    Retried transfers make progress: while replies are missing or continue the version, the part never
    shrinks, and once everything has arrived the whole version is promoted, or refused by its validation.
   */
  lemma {:induction false} ContinuedTransferArrives(f: Files, url: Url, whole: Bytes, v: Validator, m: nat,
                                                    replies: seq<Option<Reply>>, judge: Bytes -> Verdict)
    requires 0 < m < |whole| <= 31_457_280 && f.part == Some(whole[..m])
    requires f.meta == Some(Readable(Some(url), Some(v), Some(|whole|)))
    requires Continuing(whole, v, m, replies)
    ensures var g, n := AfterReplies(f, url, replies, judge), Arrived(m, replies);
      && m <= n <= |whole|
      && (n < |whole| ==> g == Files(Some(whole[..n]), f.meta, f.promoted))
      && (n == |whole| && judge(whole).Accepted? ==> g == Files(None, None, Some(whole)))
      && (n == |whole| && judge(whole).Refused? ==> g == Files(None, None, f.promoted))
    decreases |replies|
  {
    hide AcquireEffect, Continuation;
    if replies != [] {
      OneContinuation(f, url, whole, v, m, replies[0], judge);
      var n := m + Received(replies[0]);
      if n < |whole| {
        ContinuedTransferArrives(AcquireEffect(f, url, replies[0], judge), url, whole, v, n, replies[1..], judge);
      } else {
        assert replies[1..] == [];
      }
    }
  }

  /** From an empty directory: a 200 that ends early, and then continuations until the end. */
  lemma TransferArrives(url: Url, whole: Bytes, first: Reply, replies: seq<Option<Reply>>, judge: Bytes -> Verdict)
    requires !first.html && first.status == 200 && ValidatorOf(first).Some? && first.length == Given(|whole|)
    requires |whole| <= 31_457_280 && 0 < |first.body| < |whole| && first.body <= whole
    requires Continuing(whole, ValidatorOf(first).value, |first.body|, replies)
    requires Arrived(|first.body|, replies) == |whole| && judge(whole).Accepted?
    ensures AfterReplies(Files(None, None, None), url, [Some(first)] + replies, judge) == Files(None, None, Some(whole))
  {
    var f := AcquireEffect(Files(None, None, None), url, Some(first), judge);
    EarlyEndOf200(None, None, url, first);
    assert whole[..|first.body|] == first.body;
    assert ([Some(first)] + replies)[1..] == replies;
    ContinuedTransferArrives(f, url, whole, ValidatorOf(first).value, |first.body|, replies, judge);
  }

  function RepliesOf(plan: seq<Attempt>): (r: seq<Option<Reply>>)
    ensures |r| == |plan|
  {
    seq(|plan|, k requires 0 <= k < |plan| => plan[k].reply)
  }

  /** Attempts in the cache directory that are never cut short leave what the replies make of the files. */
  method RunUncut(ghost versions: Versions, url: Url, plan: seq<Attempt>, judge: Bytes -> Verdict)
    returns (cache: NavCache)
    requires forall k :: 0 <= k < |plan| && plan[k].reply.Some? ==> Honest(versions, url, plan[k].reply.value)
    requires forall k :: 0 <= k < |plan| ==> plan[k].fuel >= Enough(plan[k].reply) + 3
    ensures cache.Current() == AfterReplies(Files(None, None, None), url, RepliesOf(plan), judge)
  {
    ghost var trace;
    cache, trace := RunAttempts(versions, url, plan, judge);
    TraceFollows(url, plan, judge, trace, 0);
    assert RepliesOf(plan)[0..] == RepliesOf(plan);
  }

  lemma {:induction false} TraceFollows(url: Url, plan: seq<Attempt>, judge: Bytes -> Verdict, trace: seq<Files>,
                                        k: nat)
    requires |trace| == |plan| + 1 && k <= |plan|
    requires forall j :: 0 <= j < |plan| ==> trace[j + 1] == AcquireEffect(trace[j], url, plan[j].reply, judge)
    ensures AfterReplies(trace[k], url, RepliesOf(plan)[k..], judge) == trace[|plan|]
    decreases |plan| - k
  {
    hide AcquireEffect;
    if k < |plan| {
      TraceFollows(url, plan, judge, trace, k + 1);
      assert RepliesOf(plan)[k..][1..] == RepliesOf(plan)[k + 1..];
    }
  }
}
