/**
 * How fetch_discover_stories in scripts/update_discover.py turns the items
 * scraped for each topic into story records: the record fields, the
 * publication time taken from the item's "time ago" label, and the
 * fallback of 30 + 15·i minutes for the item at index i when the label
 * gives no time.
 *
 * The browser, the page and fetch_topic are not modelled: what fetch_topic
 * returned for each topic is a parameter.
 */
module Discover {
  import opened Wrappers
  import opened RelativeTime

  /** One object of the list the page script returns. */
  datatype Item = Item(title: string, url: string, timeAgo: string, sourceCount: string)

  /** One story record of the cache; `pubDate` is the instant the script formats. */
  datatype Story = Story(
    title: string,
    url: string,
    description: string,
    source: string,
    topic: string,
    pubDate: Instant,
    sourceCount: string)

  /** The topics scraped, in the order they are scraped. */
  const Topics: seq<string> := ["top", "tech", "finance"]

  /** The record built for `item` of `topic`, dated `t`. */
  function Record(topic: string, item: Item, t: Instant): Story {
    Story(item.title, item.url, "", "Perplexity", topic, t, item.sourceCount)
  }

  /**
   * The publication time of the item at index `i` of its topic: parsed from
   * its label, or else 30 + 15·i minutes before `now`. Overflow stands for
   * the OverflowError that either computation can raise.
   */
  function PubDate(timeAgo: string, i: nat, now: Instant): (r: Stamp)
    ensures r != NoTime
  {
    var parsed := ParseRelativeTime(Some(timeAgo), now);
    if parsed == NoTime then Before(now, Timedelta(minutes := 30 + i * 15)) else parsed
  }

  /**
   * A label that parses keeps its time; one that does not gives the item at
   * index `i` the instant 30 + 15·i minutes before `now`.
   */
  lemma PubDateSpec(timeAgo: string, i: nat, now: Instant)
    ensures ParseRelativeTime(Some(timeAgo), now) != NoTime ==>
      PubDate(timeAgo, i, now) == ParseRelativeTime(Some(timeAgo), now)
    ensures ParseRelativeTime(Some(timeAgo), now) == NoTime ==>
      && (PubDate(timeAgo, i, now).At? <==> 60 * (30 + 15 * i) <= now)
      && (PubDate(timeAgo, i, now).At? ==> PubDate(timeAgo, i, now).t == now - 60 * (30 + 15 * i))
  {
  }

  /**
   * Among items whose labels give no time, a later index is dated strictly
   * earlier, and if it can be dated at all so can every item before it.
   */
  lemma FallbackOlder(a: string, b: string, i: nat, j: nat, now: Instant)
    requires i < j
    requires ParseRelativeTime(Some(a), now) == NoTime && ParseRelativeTime(Some(b), now) == NoTime
    ensures PubDate(b, j, now).At? ==> PubDate(a, i, now).At?
    ensures PubDate(b, j, now).At? ==> PubDate(b, j, now).t < PubDate(a, i, now).t
  {
    PubDateSpec(a, i, now);
    PubDateSpec(b, j, now);
  }

  /** What dating each item of one topic gives, in item order. */
  function Stamps(items: seq<Item>, now: Instant): (r: seq<Stamp>)
    ensures |r| == |items|
  {
    seq(|items|, i requires 0 <= i < |items| => PubDate(items[i].timeAgo, i, now))
  }

  /** The instants of `stamps`, or None when one of them is an overflow. */
  function Dates(stamps: seq<Stamp>): (r: Option<seq<Instant>>)
    ensures r.Some? ==> |r.value| == |stamps|
  {
    if stamps == [] then Some([])
    else
      var n := |stamps| - 1;
      match Dates(stamps[..n])
      case None => None
      case Some(ds) =>
        match stamps[n]
        case At(t) => Some(ds + [t])
        case _ => None
  }

  /** Every stamp is an instant. */
  predicate AllAt(stamps: seq<Stamp>) {
    forall i :: 0 <= i < |stamps| ==> stamps[i].At?
  }

  /** No item of any topic raises while being dated. */
  predicate AllDated(fetched: seq<seq<Item>>, now: Instant) {
    forall k :: 0 <= k < |fetched| ==> AllAt(Stamps(fetched[k], now))
  }

  /** Dates succeeds exactly when every stamp is an instant, and then lists those instants. */
  lemma {:induction false} DatesSpec(stamps: seq<Stamp>)
    ensures Dates(stamps).Some? <==> AllAt(stamps)
    ensures Dates(stamps).Some? ==> forall i :: 0 <= i < |stamps| ==> stamps[i] == At(Dates(stamps).value[i])
  {
    if stamps != [] {
      var n := |stamps| - 1;
      var init := stamps[..n];
      DatesSpec(init);
      assert forall i :: 0 <= i < n ==> init[i] == stamps[i];
      assert AllAt(stamps) <==> AllAt(init) && stamps[n].At?;
    }
  }

  /** The records appended for one topic, item `i` dated `dates[i]`. */
  function TopicRecords(topic: string, items: seq<Item>, dates: seq<Instant>): (r: seq<Story>)
    requires |dates| == |items|
    ensures |r| == |items|
  {
    if items == [] then []
    else
      var n := |items| - 1;
      TopicRecords(topic, items[..n], dates[..n]) + [Record(topic, items[n], dates[n])]
  }

  /** Record `i` of a topic is built from item `i` and dated `dates[i]`. */
  lemma {:induction false} TopicRecordsAt(topic: string, items: seq<Item>, dates: seq<Instant>)
    requires |dates| == |items|
    ensures forall i :: 0 <= i < |items| ==> TopicRecords(topic, items, dates)[i] == Record(topic, items[i], dates[i])
  {
    if items != [] {
      var n := |items| - 1;
      TopicRecordsAt(topic, items[..n], dates[..n]);
    }
  }

  /** Every topic has one stamp per item. */
  predicate Shaped(fetched: seq<seq<Item>>, stamps: seq<seq<Stamp>>) {
    |stamps| == |fetched| && forall k :: 0 <= k < |fetched| ==> |stamps[k]| == |fetched[k]|
  }

  /** Shaped carries over to prefixes. */
  lemma ShapedPrefix(fetched: seq<seq<Item>>, stamps: seq<seq<Stamp>>, j: nat)
    requires Shaped(fetched, stamps) && j <= |fetched|
    ensures Shaped(fetched[..j], stamps[..j])
  {
    assert forall i :: 0 <= i < j ==> fetched[..j][i] == fetched[i] && stamps[..j][i] == stamps[i];
  }

  /**
   * The records of the topics in order, item `i` of topic `k` dated by
   * `stamps[k][i]`; None as soon as a stamp is an overflow.
   */
  function Gather(fetched: seq<seq<Item>>, stamps: seq<seq<Stamp>>): (r: Option<seq<Story>>)
    requires |fetched| <= |Topics| && Shaped(fetched, stamps)
  {
    if fetched == [] then Some([])
    else
      var k := |fetched| - 1;
      ShapedPrefix(fetched, stamps, k);
      match Gather(fetched[..k], stamps[..k])
      case None => None
      case Some(stories) =>
        match Dates(stamps[k])
        case None => None
        case Some(ds) => Some(stories + TopicRecords(Topics[k], fetched[k], ds))
  }

  /** What dating every item of every topic gives. */
  function StampsOf(fetched: seq<seq<Item>>, now: Instant): (r: seq<seq<Stamp>>)
    ensures Shaped(fetched, r)
  {
    seq(|fetched|, k requires 0 <= k < |fetched| => Stamps(fetched[k], now))
  }

  /**
   * What fetch_discover_stories returns for the first |fetched| topics: the
   * records of every topic in order, or None when an OverflowError escapes.
   */
  function Scrape(fetched: seq<seq<Item>>, now: Instant): Option<seq<Story>>
    requires |fetched| <= |Topics|
  {
    Gather(fetched, StampsOf(fetched, now))
  }

  /** The number of items scraped over all topics. */
  function TotalItems(fetched: seq<seq<Item>>): nat {
    if fetched == [] then 0 else TotalItems(fetched[..|fetched| - 1]) + |fetched[|fetched| - 1]|
  }

  /** Gather succeeds exactly when every stamp is an instant. */
  lemma {:induction false} GatherSucceeds(fetched: seq<seq<Item>>, stamps: seq<seq<Stamp>>)
    requires |fetched| <= |Topics| && Shaped(fetched, stamps)
    ensures Gather(fetched, stamps).Some? <==> forall k :: 0 <= k < |stamps| ==> AllAt(stamps[k])
  {
    if fetched != [] {
      var k := |fetched| - 1;
      GatherSucceeds(fetched[..k], stamps[..k]);
      DatesSpec(stamps[k]);
      assert forall j :: 0 <= j < k ==> stamps[..k][j] == stamps[j];
    }
  }

  /** A successful Gather is the earlier topics' records followed by the last topic's. */
  lemma GatherUnfold(fetched: seq<seq<Item>>, stamps: seq<seq<Stamp>>)
    requires 0 < |fetched| <= |Topics| && Shaped(fetched, stamps) && Gather(fetched, stamps).Some?
    ensures
      var n := |fetched| - 1;
      && Shaped(fetched[..n], stamps[..n])
      && Gather(fetched[..n], stamps[..n]).Some?
      && Dates(stamps[n]).Some?
      && Gather(fetched, stamps).value ==
         Gather(fetched[..n], stamps[..n]).value + TopicRecords(Topics[n], fetched[n], Dates(stamps[n]).value)
  {
    ShapedPrefix(fetched, stamps, |fetched| - 1);
  }

  /** A successful Gather has one record per item. */
  lemma {:induction false} GatherLength(fetched: seq<seq<Item>>, stamps: seq<seq<Stamp>>)
    requires |fetched| <= |Topics| && Shaped(fetched, stamps) && Gather(fetched, stamps).Some?
    ensures |Gather(fetched, stamps).value| == TotalItems(fetched)
  {
    if fetched != [] {
      var n := |fetched| - 1;
      GatherUnfold(fetched, stamps);
      GatherLength(fetched[..n], stamps[..n]);
    }
  }

  /** Every record of a successful Gather carries the topic it was scraped for. */
  lemma {:induction false} GatherTopics(fetched: seq<seq<Item>>, stamps: seq<seq<Stamp>>)
    requires |fetched| <= |Topics| && Shaped(fetched, stamps) && Gather(fetched, stamps).Some?
    ensures forall x :: x in Gather(fetched, stamps).value ==> x.topic in Topics[..|fetched|]
  {
    if fetched != [] {
      var n := |fetched| - 1;
      GatherUnfold(fetched, stamps);
      GatherTopics(fetched[..n], stamps[..n]);
      var ds := Dates(stamps[n]).value;
      TopicRecordsAt(Topics[n], fetched[n], ds);
      var part := TopicRecords(Topics[n], fetched[n], ds);
      assert forall x :: x in part ==> x.topic == Topics[n];
      assert forall t :: t in Topics[..n] ==> t in Topics[..|fetched|];
    }
  }

  /** Item `i` of the last topic gives the record at offset TotalItems(fetched[..n]) + i. */
  lemma GatherLastAt(fetched: seq<seq<Item>>, stamps: seq<seq<Stamp>>, i: nat)
    requires 0 < |fetched| <= |Topics| && Shaped(fetched, stamps) && Gather(fetched, stamps).Some?
    requires i < |fetched[|fetched| - 1]|
    ensures TotalItems(fetched[..|fetched| - 1]) + i < |Gather(fetched, stamps).value|
    ensures
      var n := |fetched| - 1;
      var x := Gather(fetched, stamps).value[TotalItems(fetched[..n]) + i];
      && x == Record(Topics[n], fetched[n][i], x.pubDate)
      && stamps[n][i] == At(x.pubDate)
  {
    var n := |fetched| - 1;
    GatherUnfold(fetched, stamps);
    var pre := Gather(fetched[..n], stamps[..n]).value;
    GatherLength(fetched[..n], stamps[..n]);
    var ds := Dates(stamps[n]).value;
    var part := TopicRecords(Topics[n], fetched[n], ds);
    assert Gather(fetched, stamps).value == pre + part;
    assert (pre + part)[|pre| + i] == part[i];
    TopicRecordAt(Topics[n], fetched[n], ds, i);
    DateAt(stamps[n], i);
  }

  /** Record `i` of one topic, from TopicRecordsAt. */
  lemma TopicRecordAt(topic: string, items: seq<Item>, dates: seq<Instant>, i: nat)
    requires |dates| == |items| && i < |items|
    ensures TopicRecords(topic, items, dates)[i] == Record(topic, items[i], dates[i])
  {
    TopicRecordsAt(topic, items, dates);
  }

  /** Stamp `i` of a successful Dates, from DatesSpec. */
  lemma DateAt(stamps: seq<Stamp>, i: nat)
    requires Dates(stamps).Some? && i < |stamps|
    ensures stamps[i] == At(Dates(stamps).value[i])
  {
    DatesSpec(stamps);
  }

  /** Item `i` of topic `k` gives the record at offset TotalItems(fetched[..k]) + i. */
  lemma {:induction false} GatherRecordAt(fetched: seq<seq<Item>>, stamps: seq<seq<Stamp>>, k: nat, i: nat)
    requires |fetched| <= |Topics| && Shaped(fetched, stamps) && Gather(fetched, stamps).Some?
    requires k < |fetched| && i < |fetched[k]|
    ensures TotalItems(fetched[..k]) + i < |Gather(fetched, stamps).value|
    ensures
      var x := Gather(fetched, stamps).value[TotalItems(fetched[..k]) + i];
      && x == Record(Topics[k], fetched[k][i], x.pubDate)
      && stamps[k][i] == At(x.pubDate)
  {
    var n := |fetched| - 1;
    if k == n {
      GatherLastAt(fetched, stamps, i);
    } else {
      GatherUnfold(fetched, stamps);
      GatherRecordAt(fetched[..n], stamps[..n], k, i);
      assert fetched[..n][..k] == fetched[..k];
    }
  }

  /** The scrape fails exactly when some item cannot be dated. */
  lemma ScrapeSucceeds(fetched: seq<seq<Item>>, now: Instant)
    requires |fetched| <= |Topics|
    ensures Scrape(fetched, now).Some? <==> AllDated(fetched, now)
  {
    GatherSucceeds(fetched, StampsOf(fetched, now));
  }

  /**
   * A successful scrape has one record per item and each record carries one
   * of the scraped topics.
   */
  lemma ScrapeShape(fetched: seq<seq<Item>>, now: Instant)
    requires |fetched| <= |Topics| && Scrape(fetched, now).Some?
    ensures |Scrape(fetched, now).value| == TotalItems(fetched)
    ensures forall x :: x in Scrape(fetched, now).value ==> x.topic in Topics
  {
    GatherLength(fetched, StampsOf(fetched, now));
    GatherTopics(fetched, StampsOf(fetched, now));
  }

  /**
   * Item `i` of topic `k` gives the record at offset TotalItems(fetched[..k]) + i:
   * built from that item, for that topic, dated by PubDate.
   */
  lemma ScrapeRecordAt(fetched: seq<seq<Item>>, now: Instant, k: nat, i: nat)
    requires |fetched| <= |Topics| && Scrape(fetched, now).Some?
    requires k < |fetched| && i < |fetched[k]|
    ensures TotalItems(fetched[..k]) + i < |Scrape(fetched, now).value|
    ensures
      var x := Scrape(fetched, now).value[TotalItems(fetched[..k]) + i];
      && x == Record(Topics[k], fetched[k][i], x.pubDate)
      && PubDate(fetched[k][i].timeAgo, i, now) == At(x.pubDate)
  {
    var stamps := StampsOf(fetched, now);
    GatherRecordAt(fetched, stamps, k, i);
    assert stamps[k][i] == PubDate(fetched[k][i].timeAgo, i, now);
  }

  /**
   * The loops of fetch_discover_stories over the topics, computing Scrape.
   * An OverflowError escaping from one item ends the whole scrape (None).
   */
  method FetchDiscoverStories(fetched: seq<seq<Item>>, now: Instant) returns (r: Option<seq<Story>>)
    requires |fetched| == |Topics|
    ensures r == Scrape(fetched, now)
  {
    ghost var stamps := StampsOf(fetched, now);
    var stories: seq<Story> := [];
    var k := 0;
    while k < |Topics|
      invariant 0 <= k <= |Topics|
      invariant Shaped(fetched[..k], stamps[..k])
      invariant Gather(fetched[..k], stamps[..k]) == Some(stories)
    {
      var appended := AppendTopic(stories, Topics[k], fetched[k], now);
      TopicStep(fetched, stamps, k, stories);
      assert stamps[k] == Stamps(fetched[k], now);
      if appended.None? {
        GatherStopsAt(fetched, stamps, k + 1);
        return None;
      }
      stories := appended.value;
      k := k + 1;
    }
    assert fetched[..k] == fetched && stamps[..k] == stamps;
    return Some(stories);
  }

  /**
   * The loop over one topic's items, appending a record per item to
   * `stories`; None when dating an item raises.
   */
  method AppendTopic(stories: seq<Story>, topic: string, items: seq<Item>, now: Instant)
    returns (r: Option<seq<Story>>)
    ensures r.None? <==> Dates(Stamps(items, now)).None?
    ensures r.Some? ==> r.value == stories + TopicRecords(topic, items, Dates(Stamps(items, now)).value)
  {
    ghost var dates: seq<Instant> := [];
    var acc := stories;
    var i := 0;
    while i < |items|
      invariant 0 <= i <= |items|
      invariant Dates(Stamps(items, now)[..i]) == Some(dates)
      invariant acc == stories + TopicRecords(topic, items[..i], dates)
    {
      var pubDate := DateItem(items[i].timeAgo, i, now);
      SameDate(items[i].timeAgo, i, now, pubDate);
      AppendStep(stories, topic, items, now, i, dates, acc, pubDate);
      if pubDate.Overflow? {
        return None;
      }
      acc := acc + [Record(topic, items[i], pubDate.t)];
      dates := dates + [pubDate.t];
      i := i + 1;
    }
    AppendDone(stories, topic, items, now, dates, acc);
    return Some(acc);
  }

  /** One iteration of the item loop of AppendTopic. */
  lemma AppendStep(stories: seq<Story>, topic: string, items: seq<Item>, now: Instant,
                   i: nat, dates: seq<Instant>, acc: seq<Story>, pubDate: Stamp)
    requires i < |items| && Dates(Stamps(items, now)[..i]) == Some(dates)
    requires acc == stories + TopicRecords(topic, items[..i], dates)
    requires pubDate == PubDate(items[i].timeAgo, i, now)
    ensures pubDate != NoTime
    ensures pubDate.Overflow? ==> Dates(Stamps(items, now)).None?
    ensures pubDate.At? ==>
      && Dates(Stamps(items, now)[..i + 1]) == Some(dates + [pubDate.t])
      && acc + [Record(topic, items[i], pubDate.t)] == stories + TopicRecords(topic, items[..i + 1], dates + [pubDate.t])
  {
    var stamps := Stamps(items, now);
    assert stamps[i] == pubDate;
    DateStep(stamps, i, dates);
    if pubDate.Overflow? {
      DatesStopAt(stamps, i + 1);
    } else {
      RecordStep(topic, items, dates, i, pubDate.t);
    }
  }

  /** After the item loop of AppendTopic has seen every item. */
  lemma AppendDone(stories: seq<Story>, topic: string, items: seq<Item>, now: Instant,
                   dates: seq<Instant>, acc: seq<Story>)
    requires Dates(Stamps(items, now)[..|items|]) == Some(dates)
    requires acc == stories + TopicRecords(topic, items[..|items|], dates)
    ensures Dates(Stamps(items, now)) == Some(dates)
    ensures acc == stories + TopicRecords(topic, items, dates)
  {
    assert Stamps(items, now)[..|items|] == Stamps(items, now);
    assert items[..|items|] == items;
  }

  /**
   * The publication time of the item at index `i`: a label that parses
   * keeps its result, and otherwise the item is dated 30 + 15·i minutes
   * before `now`, or overflows when that precedes the earliest instant.
   */
  method DateItem(timeAgo: string, i: nat, now: Instant) returns (pubDate: Stamp)
    ensures pubDate != NoTime
    ensures ParseRelativeTime(Some(timeAgo), now) != NoTime ==> pubDate == ParseRelativeTime(Some(timeAgo), now)
    ensures ParseRelativeTime(Some(timeAgo), now) == NoTime ==>
      && (pubDate.At? <==> 60 * (30 + 15 * i) <= now)
      && (pubDate.At? ==> pubDate.t == now - 60 * (30 + 15 * i))
  {
    pubDate := ParseRelativeTime(Some(timeAgo), now);
    if pubDate == NoTime {
      var offset := 30 + i * 15;
      pubDate := Before(now, Timedelta(minutes := offset));
    }
  }

  /** What DateItem promises determines the stamp: it is PubDate. */
  lemma SameDate(timeAgo: string, i: nat, now: Instant, pubDate: Stamp)
    requires pubDate != NoTime
    requires ParseRelativeTime(Some(timeAgo), now) != NoTime ==> pubDate == ParseRelativeTime(Some(timeAgo), now)
    requires ParseRelativeTime(Some(timeAgo), now) == NoTime ==>
      && (pubDate.At? <==> 60 * (30 + 15 * i) <= now)
      && (pubDate.At? ==> pubDate.t == now - 60 * (30 + 15 * i))
    ensures pubDate == PubDate(timeAgo, i, now)
  {
    PubDateSpec(timeAgo, i, now);
  }

  /** Once a prefix of the stamps holds an overflow, so do all of them. */
  lemma DatesStopAt(stamps: seq<Stamp>, j: nat)
    requires j <= |stamps| && Dates(stamps[..j]).None?
    ensures Dates(stamps).None?
  {
    DatesSpec(stamps[..j]);
    DatesSpec(stamps);
    assert forall i :: 0 <= i < j ==> stamps[..j][i] == stamps[i];
  }

  /** One more topic in the loop of FetchDiscoverStories. */
  lemma TopicStep(fetched: seq<seq<Item>>, stamps: seq<seq<Stamp>>, k: nat, stories: seq<Story>)
    requires k < |fetched| <= |Topics| && Shaped(fetched, stamps)
    requires Shaped(fetched[..k], stamps[..k]) && Gather(fetched[..k], stamps[..k]) == Some(stories)
    ensures Shaped(fetched[..k + 1], stamps[..k + 1])
    ensures Gather(fetched[..k + 1], stamps[..k + 1]) ==
      match Dates(stamps[k])
      case None => None
      case Some(ds) => Some(stories + TopicRecords(Topics[k], fetched[k], ds))
  {
    ShapedPrefix(fetched, stamps, k + 1);
    assert fetched[..k + 1][..k] == fetched[..k] && stamps[..k + 1][..k] == stamps[..k];
  }

  /** Once the first `j` topics fail, the whole of Gather fails. */
  lemma {:induction false} GatherStopsAt(fetched: seq<seq<Item>>, stamps: seq<seq<Stamp>>, j: nat)
    requires j <= |fetched| <= |Topics| && Shaped(fetched, stamps)
    requires Shaped(fetched[..j], stamps[..j]) && Gather(fetched[..j], stamps[..j]).None?
    ensures Gather(fetched, stamps).None?
    decreases |fetched| - j
  {
    if j < |fetched| {
      ShapedPrefix(fetched, stamps, j + 1);
      assert fetched[..j + 1][..j] == fetched[..j] && stamps[..j + 1][..j] == stamps[..j];
      GatherStopsAt(fetched, stamps, j + 1);
    } else {
      assert fetched[..j] == fetched && stamps[..j] == stamps;
    }
  }

  /** One more stamp, an instant or an overflow. */
  lemma DateStep(stamps: seq<Stamp>, i: nat, dates: seq<Instant>)
    requires i < |stamps| && Dates(stamps[..i]) == Some(dates)
    ensures stamps[i].At? ==> Dates(stamps[..i + 1]) == Some(dates + [stamps[i].t])
    ensures stamps[i].Overflow? ==> Dates(stamps[..i + 1]).None?
  {
    assert stamps[..i + 1][..i] == stamps[..i];
  }

  /** One more record of a topic. */
  lemma RecordStep(topic: string, items: seq<Item>, dates: seq<Instant>, i: nat, t: Instant)
    requires i < |items| && |dates| == i
    ensures TopicRecords(topic, items[..i + 1], dates + [t])
      == TopicRecords(topic, items[..i], dates) + [Record(topic, items[i], t)]
  {
    assert items[..i + 1][..i] == items[..i];
    assert (dates + [t])[..i] == dates;
  }
}
