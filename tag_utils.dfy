/**
 * Hashtag handling of `src/lib/utils/tagUtils.ts`: extraction with the
 * regular expression `/#[\w\u3040-\u309F\u30A0-\u30FF\u4E00-\u9FFF]+/g`,
 * de-duplication, the sorted tag list of a set of entries, and tag filtering.
 */
module TagUtils {
  import opened Text
  import opened Seqs
  import opened Order
  import opened Types

  /** A character the tag pattern accepts after `#`: `\w`, Hiragana, Katakana or a CJK ideograph. */
  predicate IsTagChar(c: char) {
    IsAsciiWordChar(c) ||
    ('\U{3040}' <= c <= '\U{309F}') || ('\U{30A0}' <= c <= '\U{30FF}') || ('\U{4E00}' <= c <= '\U{9FFF}')
  }

  /** The shape of every tag: `#` followed by at least one tag character. */
  predicate IsTag(t: string) {
    |t| >= 2 && t[0] == '#' && forall k :: 1 <= k < |t| ==> IsTagChar(t[k])
  }

  /** A `#` at position `i` immediately followed by a tag character. */
  predicate TagStartsAt(text: string, i: int) {
    0 <= i && i + 1 < |text| && text[i] == '#' && IsTagChar(text[i + 1])
  }

  /** The end of the longest run of tag characters starting at `j` (the greedy `+`). */
  function TagEnd(text: string, j: nat): (k: nat)
    requires j <= |text|
    ensures j <= k <= |text|
    ensures forall m :: j <= m < k ==> IsTagChar(text[m])
    ensures k == |text| || !IsTagChar(text[k])
    decreases |text| - j
  {
    if j == |text| || !IsTagChar(text[j]) then j else TagEnd(text, j + 1)
  }

  /** `t` is the match the pattern makes when it is tried at position `i`. */
  ghost predicate MatchAt(text: string, i: int, t: string) {
    TagStartsAt(text, i) && t == text[i..TagEnd(text, i + 1)]
  }

  /** `t` occurs at `p` and cannot be extended: the next character is not a tag character. */
  ghost predicate MaximalAt(text: string, t: string, p: int) {
    0 <= p && p + |t| <= |text| && text[p..p + |t|] == t &&
    (p + |t| == |text| || !IsTagChar(text[p + |t|]))
  }

  lemma MatchAtIsMaximalTag(text: string, i: int, t: string)
    requires MatchAt(text, i, t)
    ensures IsTag(t) && MaximalAt(text, t, i)
  {
  }

  /** The matches of the global pattern from position `i` on, left to right. */
  function MatchesFrom(text: string, i: nat): (r: seq<string>)
    requires i <= |text|
    ensures forall t :: t in r ==> exists p :: i <= p && MatchAt(text, p, t)
    decreases |text| - i
  {
    if i == |text| then []
    else if TagStartsAt(text, i) then
      var e := TagEnd(text, i + 1);
      assert MatchAt(text, i, text[i..e]);
      [text[i..e]] + MatchesFrom(text, e)
    else MatchesFrom(text, i + 1)
  }

  /**
   * `text.match(hashtagRegex)`, with `null` read as the empty list: a string
   * is among the matches exactly when the pattern matches it at some position.
   */
  function RegexMatches(text: string): (r: seq<string>)
    ensures forall t :: t in r <==> exists i :: MatchAt(text, i, t)
  {
    assert forall t :: (exists i :: MatchAt(text, i, t)) ==> t in MatchesFrom(text, 0) by {
      forall t | exists i :: MatchAt(text, i, t) ensures t in MatchesFrom(text, 0) {
        var i :| MatchAt(text, i, t);
        MatchesFromComplete(text, 0, i, t);
      }
    }
    MatchesFrom(text, 0)
  }

  /**
   * The scan never skips a tag start: a `#` is not a tag character, so it
   * never lies inside an earlier match.
   */
  lemma {:induction false} MatchesFromComplete(text: string, j: nat, i: int, t: string)
    requires j <= i && j <= |text| && MatchAt(text, i, t)
    ensures t in MatchesFrom(text, j)
    decreases |text| - j
  {
    if TagStartsAt(text, j) {
      var e := TagEnd(text, j + 1);
      if j != i {
        assert !IsTagChar(text[i]);
        assert e <= i;
        MatchesFromComplete(text, e, i, t);
      }
    } else {
      assert j != i;
      MatchesFromComplete(text, j + 1, i, t);
    }
  }

  /**
   * `extractTags`: the distinct matches, in order of first occurrence. A string
   * is returned exactly when the pattern matches it at some position.
   */
  function ExtractTags(text: string): (r: seq<string>)
    ensures NoDuplicates(r)
    ensures forall t :: t in r <==> exists i :: MatchAt(text, i, t)
    ensures forall t :: t in r ==> IsTag(t) && exists p :: MaximalAt(text, t, p)
  {
    assert forall t :: t in RegexMatches(text) ==> IsTag(t) && exists p :: MaximalAt(text, t, p) by {
      forall t | t in RegexMatches(text) ensures IsTag(t) && exists p :: MaximalAt(text, t, p) {
        var p :| MatchAt(text, p, t);
        MatchAtIsMaximalTag(text, p, t);
      }
    }
    Dedup(RegexMatches(text))
  }

  /** Tags come out in the order in which the text first mentions them. */
  lemma ExtractTagsFirstOccurrenceOrder(text: string, i: nat, j: nat)
    requires i < j < |ExtractTags(text)|
    ensures FirstIndex(RegexMatches(text), ExtractTags(text)[i]) < FirstIndex(RegexMatches(text), ExtractTags(text)[j])
  {
    DedupFirstOccurrenceOrder(RegexMatches(text), i, j);
  }

  /** Without a `#` directly followed by a tag character there are no tags, and conversely. */
  lemma NoTagStartNoTags(text: string)
    ensures ExtractTags(text) == [] <==> forall i :: !TagStartsAt(text, i)
  {
    if exists i :: TagStartsAt(text, i) {
      var i :| TagStartsAt(text, i);
      assert MatchAt(text, i, text[i..TagEnd(text, i + 1)]);
      assert text[i..TagEnd(text, i + 1)] in ExtractTags(text);
    }
    var r := ExtractTags(text);
    assert r != [] ==> r[0] in r;
  }

  /** `extractTagsFromTexts(...texts)`: the distinct tags of all the texts. */
  function ExtractTagsFromTexts(texts: seq<string>): (r: seq<string>)
    ensures NoDuplicates(r)
    ensures forall t :: t in r <==> exists i :: 0 <= i < |texts| && t in ExtractTags(texts[i])
  {
    var perText := seq(|texts|, i requires 0 <= i < |texts| => ExtractTags(texts[i]));
    assert |perText| == |texts| && forall i :: 0 <= i < |texts| ==> perText[i] == ExtractTags(texts[i]);
    Dedup(Flatten(perText))
  }

  /** The set of extracted tags does not depend on the order of the texts. */
  lemma ExtractTagsFromTextsReorder(texts: seq<string>, texts': seq<string>)
    requires multiset(texts) == multiset(texts')
    ensures forall t :: t in ExtractTagsFromTexts(texts) <==> t in ExtractTagsFromTexts(texts')
  {
    forall t | t in ExtractTagsFromTexts(texts) ensures t in ExtractTagsFromTexts(texts') {
      var i :| 0 <= i < |texts| && t in ExtractTags(texts[i]);
      assert texts[i] in multiset(texts');
      var j :| 0 <= j < |texts'| && texts'[j] == texts[i];
    }
    forall t | t in ExtractTagsFromTexts(texts') ensures t in ExtractTagsFromTexts(texts) {
      var i :| 0 <= i < |texts'| && t in ExtractTags(texts'[i]);
      assert texts'[i] in multiset(texts);
      var j :| 0 <= j < |texts| && texts[j] == texts'[i];
    }
  }

  /** `getUniqueTags`: every tag of every entry once, sorted as `Array.prototype.sort` sorts strings. */
  function GetUniqueTags(entries: seq<Entry>): (r: seq<string>)
    ensures SortedBy(r, s => s, false)
    ensures NoDuplicates(r)
    ensures forall t :: t in r <==> exists i :: 0 <= i < |entries| && t in entries[i].tags
  {
    var perEntry := seq(|entries|, i requires 0 <= i < |entries| => entries[i].tags);
    assert |perEntry| == |entries| && forall i :: 0 <= i < |entries| ==> perEntry[i] == entries[i].tags;
    var unique := Dedup(Flatten(perEntry));
    var r := SortBy(unique, s => s, false);
    NoDuplicatesPermutation(unique, r);
    assert forall t :: t in r <==> t in unique by {
      forall t ensures t in r <==> t in unique {
        assert t in r <==> t in multiset(r);
        assert t in unique <==> t in multiset(unique);
      }
    }
    r
  }

  /** `tags.some(tag => entryTags.includes(tag))`. */
  predicate SharesTag(entryTags: seq<string>, tags: seq<string>) {
    exists t :: t in tags && t in entryTags
  }

  /** `filterByTags`: no filter for an empty tag list, otherwise the entries sharing a tag. */
  function FilterByTags(entries: seq<Entry>, tags: seq<string>): (r: seq<Entry>)
    ensures tags == [] ==> r == entries
    ensures tags != [] ==> forall e :: e in r <==> e in entries && SharesTag(e.tags, tags)
  {
    if |tags| == 0 then entries else Filter(entries, (e: Entry) => SharesTag(e.tags, tags))
  }

  /**
   * With the empty list, no entry shares a tag, so the special case is what
   * keeps every entry.
   */
  lemma EmptyTagListSharesNothing(entryTags: seq<string>)
    ensures !SharesTag(entryTags, [])
  {
  }

  /** The filter keeps the input order: it distributes over concatenation ... */
  lemma FilterByTagsAppend(a: seq<Entry>, b: seq<Entry>, tags: seq<string>)
    ensures FilterByTags(a + b, tags) == FilterByTags(a, tags) + FilterByTags(b, tags)
  {
    if tags != [] {
      FilterAppend(a, b, (e: Entry) => SharesTag(e.tags, tags));
    }
  }

  /** ... and keeps a single entry exactly when the tag list is empty or the entry shares a tag. */
  lemma FilterByTagsSingle(e: Entry, tags: seq<string>)
    ensures FilterByTags([e], tags) == if tags == [] || SharesTag(e.tags, tags) then [e] else []
  {
  }
}
