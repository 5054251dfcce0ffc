/** The feed as the pipeline consumes it: the fields read from each
    `channel/item` and from the channel, and the namespace map built in
    `get_rss`. XML parsing and the element lookups are not modelled; the
    records hold what those lookups return. */
module Feed {
  import opened Wrappers

  /** One `channel/item`. `findtext` yields None for a missing element,
      hence the Option fields; `artHref` is the `href` of the item's
      `itunes:image`, None when the element or the attribute is missing. */
  datatype FeedItem = FeedItem(
    title: Option<string>,
    description: Option<string>,
    pubDate: Option<string>,
    enclosureUrl: string,
    enclosureType: string,
    artHref: Option<string>)

  /** The channel-level fields: `channel/title`, `channel/copyright`, the
      `itunes:author` text and `channel/image/url`. */
  datatype Channel = Channel(
    title: Option<string>,
    copyright: Option<string>,
    author: Option<string>,
    imageUrl: string)

  /** A parsed feed document: its channel, its items in document order,
      and the (prefix, uri) pairs the namespace pattern finds in its text. */
  datatype FeedDocument = FeedDocument(
    channel: Channel,
    items: seq<FeedItem>,
    namespaceMatches: seq<(string, string)>)

  /** `{ x[0]: x[1] for x in matches }`, built left to right. */
  function NamespaceMap(matches: seq<(string, string)>): (r: map<string, string>) {
    if matches == [] then map[]
    else
      var last := matches[|matches| - 1];
      NamespaceMap(matches[..|matches| - 1])[last.0 := last.1]
  }

  /** `matches[i]` is the last declaration of prefix `p`. */
  predicate LastDeclaration(matches: seq<(string, string)>, i: int, p: string) {
    && 0 <= i < |matches| && matches[i].0 == p
    && forall j :: i < j < |matches| ==> matches[j].0 != p
  }

  /** Every prefix found is a key and nothing else is; a prefix declared
      more than once maps to the uri of its last declaration. */
  lemma {:induction false} NamespaceMapLastWins(matches: seq<(string, string)>)
    ensures forall p :: p in NamespaceMap(matches) <==> exists i :: 0 <= i < |matches| && matches[i].0 == p
    ensures forall i, p :: LastDeclaration(matches, i, p) ==> NamespaceMap(matches)[p] == matches[i].1
  {
    if matches != [] {
      var init := matches[..|matches| - 1];
      var n := |matches| - 1;
      NamespaceMapLastWins(init);
      assert forall i :: 0 <= i < n ==> init[i] == matches[i];
      forall p ensures p in NamespaceMap(matches) <==> exists i :: 0 <= i < |matches| && matches[i].0 == p {
        if p in NamespaceMap(init) {
          var i :| 0 <= i < n && init[i].0 == p;
          assert matches[i].0 == p;
        }
      }
      forall i, p | LastDeclaration(matches, i, p) ensures NamespaceMap(matches)[p] == matches[i].1 {
        if i < n {
          assert LastDeclaration(init, i, p);
        }
      }
    }
  }
}
