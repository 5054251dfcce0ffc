/** `extract_date` and `date_sort`: every item's `pubDate` is parsed with
    the fixed format, and the items are put in a stable order by the
    instant they denote. `datetime.strptime` itself is a parameter. */
module Ordering {
  import opened Wrappers
  import opened Chrono
  import opened Feed

  /** What `strptime(text, "%a, %d %b %Y %H:%M:%S %z")` returns: a
      datetime, or None where it raises ValueError. */
  type DateParser = string -> Option<DateTime>

  /** Why an item has no date: `find("pubDate")` found nothing (the
      AttributeError on `.text`), or the text did not fit the format. */
  datatype DateError =
    | MissingPubDate(title: Option<string>)
    | UnparsablePubDate(title: Option<string>, text: string)

  /** items[i] is the first item, in feed order, whose date fails, and it fails with e. */
  predicate FirstFailure(items: seq<FeedItem>, parse: DateParser, i: int, e: DateError) {
    && 0 <= i < |items|
    && ExtractDate(items[i], parse) == Err(e)
    && forall j :: 0 <= j < i ==> ExtractDate(items[j], parse).Ok?
  }

  /** An item together with its parsed publication date. */
  datatype Episode = Episode(item: FeedItem, date: DateTime)

  /** `extract_date`. */
  function ExtractDate(item: FeedItem, parse: DateParser): (r: Result<DateTime, DateError>)
    ensures r.Ok? <==> item.pubDate.Some? && parse(item.pubDate.value).Some?
    ensures r.Ok? ==> r.value == parse(item.pubDate.value).value
    ensures item.pubDate.None? ==> r == Err(MissingPubDate(item.title))
    ensures item.pubDate.Some? && r.Err? ==> r == Err(UnparsablePubDate(item.title, item.pubDate.value))
  {
    match item.pubDate
    case None => Err(MissingPubDate(item.title))
    case Some(text) =>
      match parse(text)
      case None => Err(UnparsablePubDate(item.title, text))
      case Some(t) => Ok(t)
  }

  /** The sort keys, computed left to right as `sorted` does before it
      compares anything: the first item whose date fails aborts the whole
      sort with that item's error. */
  function ExtractAll(items: seq<FeedItem>, parse: DateParser): (r: Result<seq<Episode>, DateError>)
    ensures r.Ok? <==> forall i :: 0 <= i < |items| ==> ExtractDate(items[i], parse).Ok?
    ensures r.Ok? ==> (|r.value| == |items| &&
      forall i :: 0 <= i < |items| ==> r.value[i] == Episode(items[i], ExtractDate(items[i], parse).value))
    ensures r.Err? ==> exists i :: FirstFailure(items, parse, i, r.error)
  {
    if items == [] then Ok([])
    else
      match ExtractDate(items[0], parse)
      case Err(e) =>
        assert FirstFailure(items, parse, 0, e);
        Err(e)
      case Ok(t) =>
        match ExtractAll(items[1..], parse)
        case Err(e) =>
          assert exists i :: FirstFailure(items, parse, i, e) by {
            var i :| FirstFailure(items[1..], parse, i, e);
            assert forall j :: 1 <= j < i + 1 ==> items[j] == items[1..][j - 1];
            assert FirstFailure(items, parse, i + 1, e);
          }
          Err(e)
        case Ok(rest) =>
          assert forall i :: 1 <= i < |items| ==> items[i] == items[1..][i - 1];
          Ok([Episode(items[0], t)] + rest)
  }

  /** The key `date_sort` sorts by: the instant the parsed date denotes,
      which is how aware datetimes compare. */
  function Key(e: Episode): (r: int) {
    Instant(e.date)
  }

  /** `sorted(s, key=key)` only compares keys, so the sort and its lemmas
      are stated for any integer key; `date_sort` uses Key. */
  predicate SortedBy(s: seq<Episode>, key: Episode -> int) {
    forall i, j :: 0 <= i < j < |s| ==> key(s[i]) <= key(s[j])
  }

  /** The episodes of s whose key is k, in the order of s. */
  function WithKey(s: seq<Episode>, key: Episode -> int, k: int): (r: seq<Episode>) {
    if s == [] then []
    else (if key(s[0]) == k then [s[0]] else []) + WithKey(s[1..], key, k)
  }

  lemma {:induction false} WithKeyConcat(a: seq<Episode>, b: seq<Episode>, key: Episode -> int, k: int)
    ensures WithKey(a + b, key, k) == WithKey(a, key, k) + WithKey(b, key, k)
  {
    if a == [] {
      assert a + b == b;
    } else {
      var head := if key(a[0]) == k then [a[0]] else [];
      assert (a + b)[0] == a[0] && (a + b)[1..] == a[1..] + b;
      assert WithKey(a + b, key, k) == head + WithKey(a[1..] + b, key, k);
      WithKeyConcat(a[1..], b, key, k);
      assert WithKey(a, key, k) == head + WithKey(a[1..], key, k);
    }
  }

  lemma {:induction false} WithKeyAbove(s: seq<Episode>, key: Episode -> int, k: int)
    requires forall i :: 0 <= i < |s| ==> key(s[i]) > k
    ensures WithKey(s, key, k) == []
  {
    if s != [] {
      WithKeyAbove(s[1..], key, k);
    }
  }

  /** e placed after every element of the sorted s whose key is not
      greater than its own. */
  function InsertBy(s: seq<Episode>, key: Episode -> int, e: Episode): (r: seq<Episode>) {
    if s == [] || key(e) < key(s[0]) then [e] + s
    else [s[0]] + InsertBy(s[1..], key, e)
  }

  lemma {:induction false} InsertBySorted(s: seq<Episode>, key: Episode -> int, e: Episode)
    requires SortedBy(s, key)
    ensures SortedBy(InsertBy(s, key, e), key)
    ensures multiset(InsertBy(s, key, e)) == multiset(s) + multiset{e}
  {
    InsertByPermutes(s, key, e);
    if s != [] && key(e) >= key(s[0]) {
      var rest := s[1..];
      InsertBySorted(rest, key, e);
      var t := InsertBy(rest, key, e);
      InsertByMembers(rest, key, e);
      forall i | 0 <= i < |t| ensures key(s[0]) <= key(t[i]) {
        if t[i] != e {
          var j :| 0 <= j < |rest| && rest[j] == t[i];
          assert s[j + 1] == t[i];
        }
      }
      SortedCons(s[0], t, key);
    }
  }

  lemma {:induction false} InsertByPermutes(s: seq<Episode>, key: Episode -> int, e: Episode)
    ensures multiset(InsertBy(s, key, e)) == multiset(s) + multiset{e}
  {
    if s != [] && key(e) >= key(s[0]) {
      InsertByPermutes(s[1..], key, e);
      assert s == [s[0]] + s[1..];
    }
  }

  lemma SortedCons(x: Episode, t: seq<Episode>, key: Episode -> int)
    requires SortedBy(t, key)
    requires forall i :: 0 <= i < |t| ==> key(x) <= key(t[i])
    ensures SortedBy([x] + t, key)
  {
    var r := [x] + t;
    forall i, j | 0 <= i < j < |r| ensures key(r[i]) <= key(r[j]) {
      assert r[j] == t[j - 1];
      if i > 0 {
        assert r[i] == t[i - 1];
      }
    }
  }

  lemma {:induction false} InsertByMembers(s: seq<Episode>, key: Episode -> int, e: Episode)
    ensures forall i :: 0 <= i < |InsertBy(s, key, e)| ==> InsertBy(s, key, e)[i] == e || InsertBy(s, key, e)[i] in s
  {
    if s != [] && key(e) >= key(s[0]) {
      InsertByMembers(s[1..], key, e);
    }
  }

  lemma {:induction false} InsertByStable(s: seq<Episode>, key: Episode -> int, e: Episode, k: int)
    requires SortedBy(s, key)
    ensures WithKey(InsertBy(s, key, e), key, k) == WithKey(s, key, k) + WithKey([e], key, k)
  {
    if s == [] || key(e) < key(s[0]) {
      WithKeyConcat([e], s, key, k);
      if key(e) == k {
        WithKeyAbove(s, key, k);
      }
    } else {
      InsertByStable(s[1..], key, e, k);
      assert s == [s[0]] + s[1..];
      WithKeyConcat([s[0]], InsertBy(s[1..], key, e), key, k);
      WithKeyConcat([s[0]], s[1..], key, k);
    }
  }

  /** A stable sort by key (insertion from the back). */
  function SortBy(s: seq<Episode>, key: Episode -> int): (r: seq<Episode>)
    ensures SortedBy(r, key)
    ensures multiset(r) == multiset(s)
    ensures forall k :: WithKey(r, key, k) == WithKey(s, key, k)
  {
    if s == [] then []
    else
      var init, last := s[..|s| - 1], s[|s| - 1];
      var r := InsertBy(SortBy(init, key), key, last);
      InsertBySorted(SortBy(init, key), key, last);
      assert s == init + [last];
      forall k ensures WithKey(r, key, k) == WithKey(s, key, k) {
        InsertByStable(SortBy(init, key), key, last, k);
        WithKeyConcat(init, [last], key, k);
      }
      r
  }

  /** Two sequences that are both ordered by key and agree, key by key, on
      which episodes carry it and in what order, are equal: the contract
      of SortBy determines its result, whatever algorithm produces it. */
  lemma {:induction false} StableSortUnique(a: seq<Episode>, b: seq<Episode>, key: Episode -> int)
    requires SortedBy(a, key) && SortedBy(b, key)
    requires forall k :: WithKey(a, key, k) == WithKey(b, key, k)
    ensures a == b
    decreases |a|
  {
    FirstWithKey(a, key);
    FirstWithKey(b, key);
    if a != [] && b != [] {
      OnlyKeysPresent(b, key, key(a[0]));
      OnlyKeysPresent(a, key, key(b[0]));
      var k := key(a[0]);
      assert key(b[0]) == k;
      assert a[0] == b[0];
      TailsAgree(a, b, key);
      SortedTail(a, key);
      SortedTail(b, key);
      StableSortUnique(a[1..], b[1..], key);
      assert a == [a[0]] + a[1..] && b == [b[0]] + b[1..];
    }
  }

  lemma TailsAgree(a: seq<Episode>, b: seq<Episode>, key: Episode -> int)
    requires a != [] && b != [] && a[0] == b[0]
    requires SortedBy(a, key) && SortedBy(b, key)
    requires forall k :: WithKey(a, key, k) == WithKey(b, key, k)
    ensures forall k :: WithKey(a[1..], key, k) == WithKey(b[1..], key, k)
  {
    forall k ensures WithKey(a[1..], key, k) == WithKey(b[1..], key, k) {
      var head: seq<Episode> := if key(a[0]) == k then [a[0]] else [];
      assert WithKey(a, key, k) == head + WithKey(a[1..], key, k);
      assert WithKey(b, key, k) == head + WithKey(b[1..], key, k);
      assert WithKey(a[1..], key, k) == WithKey(a, key, k)[|head|..];
      assert WithKey(b[1..], key, k) == WithKey(b, key, k)[|head|..];
    }
  }

  lemma SortedTail(s: seq<Episode>, key: Episode -> int)
    requires s != [] && SortedBy(s, key)
    ensures SortedBy(s[1..], key)
  {
  }

  /** In a non-empty sequence, the episodes with the first key start with
      the first element. */
  lemma FirstWithKey(s: seq<Episode>, key: Episode -> int)
    ensures s != [] ==> WithKey(s, key, key(s[0])) != [] && WithKey(s, key, key(s[0]))[0] == s[0]
  {
  }

  /** A key that has episodes in a sorted s is not below s's first key. */
  lemma {:induction false} OnlyKeysPresent(s: seq<Episode>, key: Episode -> int, k: int)
    requires s != [] && SortedBy(s, key)
    requires WithKey(s, key, k) != []
    ensures key(s[0]) <= k
  {
    if key(s[0]) != k {
      assert WithKey(s, key, k) == WithKey(s[1..], key, k);
      OnlyKeysPresent(s[1..], key, k);
    }
  }

  /** `date_sort`: either the first date error in feed order, or the
      episodes ordered by instant, a permutation of the feed's items in
      which items with equal instants keep their feed order. */
  function DateSort(items: seq<FeedItem>, parse: DateParser): (r: Result<seq<Episode>, DateError>)
    ensures r.Ok? <==> forall i :: 0 <= i < |items| ==> ExtractDate(items[i], parse).Ok?
    ensures r.Err? ==> exists i :: FirstFailure(items, parse, i, r.error)
    ensures r.Ok? ==> var extracted := ExtractAll(items, parse).value;
      && |r.value| == |items|
      && SortedBy(r.value, Key)
      && multiset(r.value) == multiset(extracted)
      && forall k :: WithKey(r.value, Key, k) == WithKey(extracted, Key, k)
  {
    match ExtractAll(items, parse)
    case Err(e) => Err(e)
    case Ok(eps) =>
      var r := SortBy(eps, Key);
      assert |r| == |multiset(r)| == |multiset(eps)| == |eps|;
      Ok(r)
  }
}
