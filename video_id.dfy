/**
 * `extract_video_id`: the first match of the pattern
 * `(?:v=|\/)([0-9A-Za-z_-]{11}).*` in a URL, written as an explicit search
 * for the leftmost position where the pattern matches. The trailing `.*`
 * matches any rest of the string, so it never makes a match fail.
 */
module VideoId {

  import opened Wrappers

  /** Length of a video id, the `{11}` of the pattern. */
  const ID_LENGTH: nat := 11

  /** The character class `[0-9A-Za-z_-]`. */
  predicate IsIdChar(c: char)
  {
    ('0' <= c <= '9') || ('A' <= c <= 'Z') || ('a' <= c <= 'z') || c == '_' || c == '-'
  }

  /** Eleven id characters start at position `j` of `s`. */
  predicate IdAt(s: string, j: nat)
  {
    j + ID_LENGTH <= |s| && forall k :: j <= k < j + ID_LENGTH ==> IsIdChar(s[k])
  }

  /** The first alternative, `v=` followed by an id, matches at `i`. */
  predicate MatchesQueryAt(s: string, i: nat)
  {
    i + 2 <= |s| && s[i] == 'v' && s[i + 1] == '=' && IdAt(s, i + 2)
  }

  /** The second alternative, `/` followed by an id, matches at `i`. */
  predicate MatchesSlashAt(s: string, i: nat)
  {
    i < |s| && s[i] == '/' && IdAt(s, i + 1)
  }

  /** The pattern matches starting at position `i`. */
  predicate MatchAt(s: string, i: nat)
  {
    MatchesQueryAt(s, i) || MatchesSlashAt(s, i)
  }

  /** Where group 1 starts for a match at `i`: just after `v=` or after `/`. */
  function GroupStart(s: string, i: nat): (g: nat)
    requires MatchAt(s, i)
    ensures IdAt(s, g)
    ensures MatchesQueryAt(s, i) ==> g == i + 2
    ensures MatchesSlashAt(s, i) ==> g == i + 1
  {
    if MatchesQueryAt(s, i) then i + 2 else i + 1
  }

  /** `i` is the leftmost position where the pattern matches. */
  predicate LeftmostMatch(s: string, i: nat)
  {
    MatchAt(s, i) && forall j :: 0 <= j < i ==> !MatchAt(s, j)
  }

  /** At one position at most one alternative applies: the first character tells them apart. */
  lemma AlternativesExclusive(s: string, i: nat)
    ensures !(MatchesQueryAt(s, i) && MatchesSlashAt(s, i))
  {
  }

  /** `re.search` scanning from position `from`: the first position at or after it that matches. */
  function FindMatch(s: string, from: nat): (r: Option<nat>)
    requires from <= |s|
    ensures r.Some? ==> from <= r.value < |s| && MatchAt(s, r.value)
    ensures r.Some? ==> forall j :: from <= j < r.value ==> !MatchAt(s, j)
    ensures r.None? <==> forall j :: from <= j < |s| ==> !MatchAt(s, j)
    decreases |s| - from
  {
    if from == |s| then None
    else if MatchAt(s, from) then Some(from)
    else FindMatch(s, from + 1)
  }

  /** `extract_video_id(url)`: group 1 of the first match, or `None`. */
  function ExtractVideoId(url: string): (r: Option<string>)
    ensures r.None? <==> forall i :: 0 <= i < |url| ==> !MatchAt(url, i)
    ensures r.Some? ==> |r.value| == ID_LENGTH
    ensures r.Some? ==> forall k :: 0 <= k < |r.value| ==> IsIdChar(r.value[k])
  {
    match FindMatch(url, 0)
    case None => None
    case Some(i) =>
      var g := GroupStart(url, i);
      Some(url[g..g + ID_LENGTH])
  }

  /**
   * The id returned is the one after the leftmost match: whenever `i` is
   * the leftmost matching position, the result is the eleven characters
   * that follow its `v=` or `/`.
   */
  lemma ExtractIsLeftmost(url: string, i: nat)
    requires LeftmostMatch(url, i)
    ensures ExtractVideoId(url) == Some(url[GroupStart(url, i)..GroupStart(url, i) + ID_LENGTH])
  {
    var r := FindMatch(url, 0);
    assert r.Some? by {
      assert MatchAt(url, i) && i < |url|;
    }
  }

  /** A short link: `https://youtu.be/dQw4w9WgXcQ` gives `dQw4w9WgXcQ`. */
  lemma ShortLinkExample()
    ensures ExtractVideoId("https://youtu.be/" + "dQw4w9WgXcQ") == Some("dQw4w9WgXcQ")
  {
    var id := "dQw4w9WgXcQ";
    var url := "https://youtu.be/" + id;
    forall j | 0 <= j < 16
      ensures !MatchAt(url, j)
    {
      NotAMatchInShortLink(url, j);
    }
    assert MatchesSlashAt(url, 16);
    ExtractIsLeftmost(url, 16);
    assert url[17..28] == id;
  }

  /** A watch link: the id is taken from after `v=`, the first alternative. */
  lemma WatchLinkExample()
    ensures ExtractVideoId("https://www.youtube.com/watch?v=" + "dQw4w9WgXcQ") == Some("dQw4w9WgXcQ")
  {
    var id := "dQw4w9WgXcQ";
    var url := "https://www.youtube.com/watch?v=" + id;
    forall j | 0 <= j < 30
      ensures !MatchAt(url, j)
    {
      NotAMatchInWatchPath(url, j);
    }
    assert MatchesQueryAt(url, 30);
    ExtractIsLeftmost(url, 30);
    assert url[32..43] == id;
  }

  /** Nothing before the `v=` of a watch link starts a match: no other `v`, and each `/` is followed by a non-id character within eleven. */
  lemma NotAMatchInWatchPath(url: string, j: nat)
    requires 31 < |url| && url[..32] == "https://www.youtube.com/watch?v="
    requires j < 30
    ensures !MatchAt(url, j)
  {
    var page := url[..32];
    assert url[j] == page[j];
    if j == 6 {
      assert url[7] == page[7];
    } else if j == 7 {
      assert url[11] == page[11];
    } else if j == 23 {
      assert url[29] == page[29];
    } else {
      assert url[j] != '/' && url[j] != 'v';
    }
  }

  /** A URL without an eleven-character token gives no id. */
  lemma NoTokenExample()
    ensures ExtractVideoId("https://youtu.be/" + "short") == None
  {
    var url := "https://youtu.be/" + "short";
    forall j | 0 <= j < |url|
      ensures !MatchAt(url, j)
    {
      if j < 16 {
        NotAMatchInShortLink(url, j);
      }
    }
  }

  /** Why nothing in `https://youtu.be` starts a match: no `v`, and each `/` is followed by a non-id character. */
  lemma NotAMatchInShortLink(url: string, j: nat)
    requires 16 < |url| && url[..17] == "https://youtu.be/"
    requires j < 16
    ensures !MatchAt(url, j)
  {
    var host := url[..17];
    assert url[j] == host[j];
    if j == 6 {
      assert url[7] == host[7];
    } else if j == 7 {
      assert url[13] == host[13];
    } else if j >= 8 {
      assert url[j] != '/';
    }
  }
}
