/**
 * The decision in `main` of scripts/update_discover.py: whether a fresh
 * scrape may replace the cached stories, and, when it may, how the stories
 * are grouped by topic in the cache that is written.
 *
 * Reading and writing perplexity_cache.json, the process exit and the
 * messages are not modelled: the number of stories found in the existing
 * cache and the clock readings are parameters, and the outcome says what
 * would be written.
 */
module CacheUpdate {
  import opened Wrappers
  import opened RelativeTime
  import opened Discover

  /** Fewer stories than this never replace the cache. */
  const MinStoriesToWrite: nat := 30

  /** Why the cache is kept, or that it is overwritten. */
  datatype Verdict = NoStories | TooFew | LessThanHalf | Overwrite

  /** The three safety checks, in the order `main` makes them. */
  function Guard(count: nat, existing: nat): (v: Verdict)
    ensures v == Overwrite <==>
      count > 0 && count >= MinStoriesToWrite && (existing == 0 || 2 * count >= existing)
    ensures existing == 0 ==> (v == Overwrite <==> count >= MinStoriesToWrite)
    ensures v == NoStories <==> count == 0
    ensures v == TooFew <==> 0 < count < MinStoriesToWrite
    ensures v == LessThanHalf <==> count >= MinStoriesToWrite && existing > 0 && 2 * count < existing
  {
    if count == 0 then NoStories
    else if count < MinStoriesToWrite then TooFew
    else if existing > 0 && (count as real) < (existing as real) * 0.5 then LessThanHalf
    else Overwrite
  }

  /** A larger scrape, against a cache no larger, passes whenever a smaller one does. */
  lemma GuardMonotone(c1: nat, c2: nat, e1: nat, e2: nat)
    requires c1 <= c2 && e2 <= e1 && Guard(c1, e1) == Overwrite
    ensures Guard(c2, e2) == Overwrite
  {
  }

  // ---------------------------------------------------------------------
  // Topic buckets
  // ---------------------------------------------------------------------

  /** The stories of `topic`, in the order of `stories`. */
  function Bucket(stories: seq<Story>, topic: string): seq<Story> {
    if stories == [] then []
    else
      var last := stories[|stories| - 1];
      Bucket(stories[..|stories| - 1], topic) + (if last.topic == topic then [last] else [])
  }

  /** `a` is `b` with some elements left out, the rest kept in order. */
  ghost predicate Subsequence(a: seq<Story>, b: seq<Story>)
    decreases |b|
  {
    if a == [] then true
    else if b == [] then false
    else
      || (a[|a| - 1] == b[|b| - 1] && Subsequence(a[..|a| - 1], b[..|b| - 1]))
      || Subsequence(a, b[..|b| - 1])
  }

  /** A bucket keeps the order of the stories it takes. */
  lemma {:induction false} BucketSubsequence(stories: seq<Story>, topic: string)
    ensures Subsequence(Bucket(stories, topic), stories)
  {
    if stories != [] {
      var init := stories[..|stories| - 1];
      BucketSubsequence(init, topic);
      var b := Bucket(stories, topic);
      if stories[|stories| - 1].topic == topic {
        assert b[..|b| - 1] == Bucket(init, topic);
      } else {
        assert b == Bucket(init, topic);
        if b != [] {
          SubsequenceOfPrefix(b, init, stories);
        }
      }
    }
  }

  lemma SubsequenceOfPrefix(a: seq<Story>, init: seq<Story>, b: seq<Story>)
    requires a != [] && b != [] && init == b[..|b| - 1] && Subsequence(a, init)
    ensures Subsequence(a, b)
  {
  }

  /**
   * A bucket holds each story of its topic exactly as often as the stories
   * do, and no story of another topic.
   */
  lemma {:induction false} BucketCount(stories: seq<Story>, topic: string, x: Story)
    ensures multiset(Bucket(stories, topic))[x] == if x.topic == topic then multiset(stories)[x] else 0
  {
    if stories != [] {
      var init, last := stories[..|stories| - 1], stories[|stories| - 1];
      assert stories == init + [last];
      BucketCount(init, topic, x);
    }
  }

  /** A story is in a bucket exactly when it is one of the stories and has that topic. */
  lemma BucketMembers(stories: seq<Story>, topic: string, x: Story)
    ensures x in Bucket(stories, topic) <==> x in stories && x.topic == topic
  {
    BucketCount(stories, topic, x);
  }

  /** The three bucket sizes together. */
  function BucketTotal(stories: seq<Story>): nat {
    |Bucket(stories, "top")| + |Bucket(stories, "tech")| + |Bucket(stories, "finance")|
  }

  /**
   * The buckets hold no more stories than there are, and all of them when
   * every story has one of the scraped topics.
   */
  lemma {:induction false} BucketSizes(stories: seq<Story>)
    ensures BucketTotal(stories) <= |stories|
    ensures (forall x :: x in stories ==> x.topic in Topics) ==> BucketTotal(stories) == |stories|
  {
    if stories != [] {
      var init := stories[..|stories| - 1];
      assert forall x :: x in init ==> x in stories;
      BucketSizes(init);
    }
  }

  /** The `topics` dictionary `main` fills in place, one story at a time. */
  method BuildTopics(stories: seq<Story>) returns (topics: map<string, seq<Story>>)
    ensures topics.Keys == set t | t in Topics
    ensures forall t :: t in topics ==> topics[t] == Bucket(stories, t)
  {
    topics := map["top" := [], "tech" := [], "finance" := []];
    var j := 0;
    while j < |stories|
      invariant 0 <= j <= |stories|
      invariant topics.Keys == {"top", "tech", "finance"}
      invariant forall t :: t in topics ==> topics[t] == Bucket(stories[..j], t)
    {
      var s := stories[j];
      var t := s.topic;
      BucketStep(stories, j);
      if t in topics {
        topics := topics[t := topics[t] + [s]];
      }
      j := j + 1;
    }
    assert stories[..j] == stories;
    assert {"top", "tech", "finance"} == set t | t in Topics;
  }

  /** One more story of the loop in BuildTopics. */
  lemma BucketStep(stories: seq<Story>, j: nat)
    requires j < |stories|
    ensures forall t ::
      Bucket(stories[..j + 1], t) == Bucket(stories[..j], t) + (if stories[j].topic == t then [stories[j]] else [])
  {
    assert stories[..j + 1][..j] == stories[..j];
  }

  // ---------------------------------------------------------------------
  // One run of the script
  // ---------------------------------------------------------------------

  /** The cache file's content. */
  datatype Cache = Cache(stories: seq<Story>, cachedAt: Instant, topics: map<string, seq<Story>>)

  /**
   * How a run ends: an OverflowError escaped while dating the stories, the
   * existing cache was kept for the given reason, or this cache was written.
   */
  datatype Outcome = Crashed | Kept(reason: Verdict) | Wrote(cache: Cache)

  /** The cache `main` writes for `stories`. */
  function CacheFor(stories: seq<Story>, cachedAt: Instant): Cache {
    Cache(stories, cachedAt, map t | t in Topics :: Bucket(stories, t))
  }

  /**
   * `main`: scrape, check, and build the cache. `existingCount` is the number
   * of stories in the cache already on disk (0 when there is none or it
   * cannot be read), `now` the clock when dating the items and `cachedAt`
   * the clock when the cache is built.
   */
  method Update(existingCount: nat, fetched: seq<seq<Item>>, now: Instant, cachedAt: Instant)
    returns (o: Outcome)
    requires |fetched| == |Topics|
    ensures o.Crashed? <==> Scrape(fetched, now).None?
    ensures o.Crashed? <==> !AllDated(fetched, now)
    ensures Scrape(fetched, now).Some? ==>
      var stories := Scrape(fetched, now).value;
      var v := Guard(|stories|, existingCount);
      && (o.Wrote? <==> v == Overwrite)
      && (o.Kept? ==> o.reason == v)
      && (o.Wrote? ==> o.cache == CacheFor(stories, cachedAt))
  {
    var scraped := FetchDiscoverStories(fetched, now);
    ScrapeSucceeds(fetched, now);
    if scraped.None? {
      return Crashed;
    }
    var stories := scraped.value;
    var v := Guard(|stories|, existingCount);
    if v != Overwrite {
      return Kept(v);
    }
    var topics := BuildTopics(stories);
    assert topics == map t | t in Topics :: Bucket(stories, t);
    return Wrote(Cache(stories, cachedAt, topics));
  }

  /**
   * A written cache holds at least MinStoriesToWrite stories, and its topic
   * buckets together hold every one of them, since every record carries a
   * scraped topic.
   */
  lemma WrittenCacheComplete(existingCount: nat, fetched: seq<seq<Item>>, now: Instant)
    requires |fetched| == |Topics| && Scrape(fetched, now).Some?
    requires Guard(|Scrape(fetched, now).value|, existingCount) == Overwrite
    ensures |Scrape(fetched, now).value| >= MinStoriesToWrite
    ensures BucketTotal(Scrape(fetched, now).value) == |Scrape(fetched, now).value| == TotalItems(fetched)
  {
    ScrapeShape(fetched, now);
    BucketSizes(Scrape(fetched, now).value);
  }
}
