# Perplexity Discover cache update, in Dafny

This project models the heart of `scripts/update_discover.py`, the scheduled job that scrapes the Perplexity Discover pages and refreshes `perplexity_cache.json`. It covers four parts:

- **The relative-time parser.** `parse_relative_time` strips and lower-cases a label such as "5 hours ago". It then searches the label for `(\d+)\s*(minute|min|hour|hr|day|week|month)` and subtracts the matching `timedelta` from the clock. A month counts as 30 days.
  - The regular-expression search is modelled as a scanner: `MatchAt`, `Matches`, `FirstFound` and `Search`.
  - It is proved equal to a declarative description of what `re.search` reports (`PatternAt`, `IsSearchResult`): the leftmost match, with the only digit and white-space split possible at that position, and the first unit alternative that fits there.
- **Dating the scraped items.** For each of the topics `top`, `tech` and `finance`, every item becomes a story record. Its publication time is the parsed label. When the label gives no time, the item at index `i` is dated `30 + 15·i` minutes before the clock instead.
  - `timedelta` and datetime subtraction can raise `OverflowError`: a `timedelta` over 999999999 days, or a result before `0001-01-01`. The script does not catch it, so the whole run ends without writing. The model represents this as `Stamp.Overflow`, `None` from the scrape, and `Outcome.Crashed` from the run.
- **The overwrite guard.** With `MIN_STORIES_TO_WRITE = 30`, the existing cache is kept in three cases:
  - the scrape found no stories;
  - it found fewer than 30;
  - a non-empty cache exists and the scrape holds fewer than half as many stories.
- **Topic bucketing.** The `topics` dictionary of the written cache sends each of the three topics to its stories, in scrape order.

Times are whole seconds since `0001-01-01T00:00:00Z`, the resolution of the `"%Y-%m-%dT%H:%M:%SZ"` strings the script writes. The upper bound is the last second of year 9999, as in Python's `datetime`.

Modules:

- `Wrappers`: `Option`.
- `RelativeTime`: characters, the pattern search, `timedelta` and the parser.
- `Discover`: records and the two loops of `fetch_discover_stories`, as methods proved against the `Scrape` function.
- `CacheUpdate`: the guard, the bucketing loop of `main`, and one complete run.

## Model

| member | source | states |
|---|---|---|
| RelativeTime.ParseRelativeTimeSpec | scripts/update_discover.py:15-42 | The parser yields no time exactly when the text is missing or empty, or holds no match of the pattern once stripped and lower-cased. Otherwise, for the unique match `re.search` reports, it yields `now` minus amount × unit length, which is never later than `now`. It overflows exactly when that would fall before the earliest instant. |
| RelativeTime.ParseIgnoresCase | scripts/update_discover.py:19-22 | Two labels that lower-case to the same text parse to the same result. |
| RelativeTime.ParseRelativeTime | scripts/update_discover.py:15-42 | A parsed time is never later than `now`, and a non-empty label in which the search finds a match always yields a time or an overflow, never no time. The full characterisation is ParseRelativeTimeSpec. |
| RelativeTime.LowerChar | scripts/update_discover.py:19 | Lower-casing a character gives at least one character. A capital ASCII letter becomes the small letter at the same alphabet position. Digits, small letters and white space are left as they are, and a non-space character never becomes one that starts or ends with white space. |
| RelativeTime.LowerNoCapital | scripts/update_discover.py:19 | A lower-cased text holds no capital ASCII letter. |
| RelativeTime.TrimStart | scripts/update_discover.py:19 | The result is a suffix of the text that does not start with white space. |
| RelativeTime.TrimStartSpec | scripts/update_discover.py:19 | Every character removed from the front of the text is white space. |
| RelativeTime.TrimEnd | scripts/update_discover.py:19 | The result is a prefix of the text that does not end with white space. |
| RelativeTime.TrimEndSpec | scripts/update_discover.py:19 | Every character removed from the back of the text is white space. |
| RelativeTime.DigitRunSpec | scripts/update_discover.py:22 | The digit run measured at a position consists of digits and is maximal: no digit follows it. |
| RelativeTime.SpaceRunSpec | scripts/update_discover.py:22 | The white-space run measured at a position consists of white space and is maximal. |
| RelativeTime.FirstUnitSpec | scripts/update_discover.py:22 | The unit chosen is the earliest alternative that fits at the position, and none is chosen only when no alternative fits. |
| RelativeTime.PatternRuns | scripts/update_discover.py:22 | Wherever the pattern matches, group 1 is the whole digit run and the white space is the whole white-space run: backtracking never yields another split. |
| RelativeTime.MatchAtSpec | scripts/update_discover.py:22 | The scanner finds nothing at a position exactly when the pattern cannot match there. What it finds is a match at that position with the first fitting unit alternative. |
| RelativeTime.FirstFound | scripts/update_discover.py:22 | The position returned holds a match, or is past the end, and no earlier position holds one: start positions are tried left to right. |
| RelativeTime.SearchSpec | scripts/update_discover.py:22 | The search finds nothing exactly when the pattern matches nowhere in the text. Otherwise it returns a match with no match starting further left. |
| RelativeTime.Search | scripts/update_discover.py:22 | The unit of a match is one of the seven alternatives. What the search returns is characterised by SearchSpec and SearchResultUnique. |
| RelativeTime.Value | scripts/update_discover.py:26 | The value of a string of `n` decimal digits is below 10^n. |
| RelativeTime.SearchResultUnique | scripts/update_discover.py:22 | At most one match satisfies the description of what `re.search` reports, so that description fixes the groups. |
| RelativeTime.Timedelta | scripts/update_discover.py:30-38 | The constructor fails with an OverflowError exactly when the weeks, days, hours and minutes together reach 1000000000 days. Otherwise the delta's value in seconds is their sum, normalised into at most 999999999 days and less than one day of seconds. |
| RelativeTime.Subtract | scripts/update_discover.py:30-38 | Subtracting a delta never yields "no time". It yields an instant exactly when the delta is no longer than the time since the earliest instant, and that instant is `now` minus the delta. |
| RelativeTime.Before | scripts/update_discover.py:30-38 | `now - timedelta(…)` yields an instant exactly when the constructor succeeded and the delta fits after the earliest instant, and that instant is `now` minus the delta; otherwise an overflow. |
| RelativeTime.Ago | scripts/update_discover.py:29-40 | The unit dispatch never yields a time later than `now`. What each unit gives is stated by AgoByUnit. |
| RelativeTime.AgoByUnit | scripts/update_discover.py:29-40 | Every unit the pattern can capture selects a branch other than the final `else`. That branch moves back by the amount times the unit's length in minutes: 1, 60, 1440, 10080, or 43200 for a 30-day month. |
| RelativeTime.AgoMonotone | scripts/update_discover.py:29-38 | For a fixed unit, a larger amount never gives a later instant. If the larger amount can be dated, so can the smaller one. |
| Discover.PubDate | scripts/update_discover.py:202-206 | An item's publication time is always set, either to an instant or to an overflow. |
| Discover.PubDateSpec | scripts/update_discover.py:202-206 | A label that parses keeps its parsed result, an overflow included. A label that does not gives the item at index `i` the instant `60·(30+15·i)` seconds before `now`, or an overflow when that would fall before the earliest instant. |
| Discover.FallbackOlder | scripts/update_discover.py:203-205 | Among items whose labels give no time, a later index is dated strictly earlier. If a later item can be dated, so can every earlier one. |
| Discover.DateItem | scripts/update_discover.py:202-206 | The imperative parse-then-fall-back step always sets a time. A label that parses keeps its result; otherwise the item at index `i` is dated `60·(30+15·i)` seconds before `now`, or overflows exactly when that precedes the earliest instant. |
| Discover.DatesSpec | scripts/update_discover.py:201-206 | A topic's items can all be dated exactly when none overflows, and then the dates are the instants in item order. |
| Discover.TopicRecordsAt | scripts/update_discover.py:201-216 | Record `i` of a topic copies title, URL and source count from item `i`, has an empty description, source `Perplexity` and that topic, and is dated by the `i`-th date. |
| Discover.Record | scripts/update_discover.py:208-216 | The record dict built for one item; its fields are stated per item by TopicRecordsAt and ScrapeRecordAt. |
| Discover.AppendTopic | scripts/update_discover.py:201-216 | The item loop fails exactly when some item of the topic overflows. Otherwise it appends exactly that topic's records to the stories so far. |
| Discover.FetchDiscoverStories | scripts/update_discover.py:182-222 | The topic loop returns exactly the Scrape of the fetched items: every topic's records, in topic order, or failure. |
| Discover.Scrape | scripts/update_discover.py:182-222 | What fetch_discover_stories returns; specified by ScrapeSucceeds, ScrapeShape and ScrapeRecordAt. |
| Discover.GatherSucceeds | scripts/update_discover.py:197-216 | Gathering records succeeds exactly when every item of every topic is dated by an instant. |
| Discover.GatherLength | scripts/update_discover.py:197-216 | A successful gather has one record per item over all topics. |
| Discover.GatherTopics | scripts/update_discover.py:197-216 | Every gathered record carries a topic that was scraped. |
| Discover.GatherRecordAt | scripts/update_discover.py:197-216 | Item `i` of topic `k` yields the record at offset (items of earlier topics) + `i`, built from that item for that topic and dated by its stamp. |
| Discover.ScrapeSucceeds | scripts/update_discover.py:197-216 | The scrape fails exactly when some item of some topic cannot be dated. |
| Discover.ScrapeShape | scripts/update_discover.py:197-222 | A successful scrape has one record per fetched item, and each record carries one of `top`, `tech` or `finance`. |
| Discover.ScrapeRecordAt | scripts/update_discover.py:197-216 | The record at offset (items of earlier topics) + `i` is item `i` of topic `k`, for topic `k`, dated by that item's PubDate. |
| CacheUpdate.Guard | scripts/update_discover.py:250-269 | The cache is overwritten exactly when the scrape has at least 30 stories and either no cache exists or the scrape holds at least half as many stories. Each reason for keeping the cache is returned exactly in its own case: no stories, between 1 and 29 stories, or at least 30 but fewer than half of a non-empty cache. |
| CacheUpdate.GuardMonotone | scripts/update_discover.py:255-269 | A scrape at least as large, against a cache no larger, passes whenever a smaller one passes. |
| CacheUpdate.BuildTopics | scripts/update_discover.py:272-276 | The in-place loop produces a dictionary with exactly the keys `top`, `tech` and `finance`. Each key holds the bucket of that topic's stories. |
| CacheUpdate.Bucket | scripts/update_discover.py:272-276 | One topic's list in `topics`; specified by BucketSubsequence, BucketCount and BucketMembers. |
| CacheUpdate.BucketSubsequence | scripts/update_discover.py:272-276 | A bucket keeps the scrape order of the stories it takes. |
| CacheUpdate.BucketCount | scripts/update_discover.py:272-276 | A bucket holds each story of its topic as many times as the scrape does, and no story of another topic. |
| CacheUpdate.BucketMembers | scripts/update_discover.py:272-276 | A story is in a bucket exactly when it is scraped and has that topic. |
| CacheUpdate.BucketSizes | scripts/update_discover.py:272-276 | The three buckets together hold no more stories than were scraped. They hold all of them when every story has one of the three topics. |
| CacheUpdate.Update | scripts/update_discover.py:230-285 | A run crashes exactly when some item cannot be dated. Otherwise it writes exactly when the guard allows it and keeps the cache for the guard's reason when not. What it writes is the scraped stories, the time of writing and the topic buckets. |
| CacheUpdate.CacheFor | scripts/update_discover.py:278-282 | The cache dict `main` writes: the stories, the time of writing, and the three topic buckets. Its content is stated by Update and WrittenCacheComplete. |
| CacheUpdate.WrittenCacheComplete | scripts/update_discover.py:250-282 | A written cache holds at least 30 stories, one per fetched item. Its topic buckets together hold every one of them. |

## Left out

- The browser session, `fetch_topic` with its retries and waits, and the page script `JS_EXTRACT`. Opening the browser and extracting items is not part of this model; what `fetch_topic` returned for each topic is a parameter of `FetchDiscoverStories` and `Update`.
- Reading and writing `perplexity_cache.json`, JSON encoding, `sys.exit`, the progress messages and the `Counter` of topic counts. These are I/O or output only. `existingCount` stands for the number of stories read from the existing cache, 0 when it is absent or unreadable.
- `datetime.now`. The clock readings are parameters.
- RelativeTime.ParseRelativeTime: `parse_relative_time` reads its own clock, a moment after `fetch_discover_stories` reads its own. The model gives both readings the same value `now`, so the parsed times and the fallback times share one clock.
- Microseconds and `strftime` formatting. Instants are whole seconds: the formatted string has that resolution, and every delta is a whole number of seconds.
- RelativeTime.IsDigit: `\d` and `int()` accept every Unicode decimal digit. The model accepts ASCII digits only.
- RelativeTime.LowerChar: lower-casing is written out only for ASCII capitals, the Kelvin sign and capital I with dot above. These are the characters whose lower-case form contains an ASCII letter. Every other character is left as it is; its lower-case form cannot affect which digits, white space or unit letters match.
- RelativeTime.Value: the limit on the number of digits `int()` converts, which raises `ValueError`, is not modelled. The limit depends on the Python version and its configuration.
- CacheUpdate.Guard: `existing_count * 0.5` is a float in the source. The model compares it exactly, which agrees with the float comparison for every count below 2^53.
- CacheUpdate.BuildTopics: the `"top"` default of `s.get("topic", "top")` is not modelled. Every record built by the scrape carries its topic.
- The defaults of `item.get("timeAgo", "")` and `item.get("sourceCount", "")` are not modelled. Every item the page script returns has all four fields.
