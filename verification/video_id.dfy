/**
 * extract_video_id (backend/yt.py): the first match of the pattern
 * (?:v=|/)([0-9A-Za-z_-]{11}) found by a left-to-right regex search,
 * reduced to its capture group.
 */
module VideoIds {
  import opened Basics

  /** Length of a video id: the {11} of the pattern. */
  const IdLength: nat := 11

  /** The character class [0-9A-Za-z_-]. */
  predicate IsIdChar(c: char) {
    ('0' <= c <= '9') || ('A' <= c <= 'Z') || ('a' <= c <= 'z') || c == '_' || c == '-'
  }

  /** Eleven id characters start at position i. */
  predicate IdAt(s: string, i: int) {
    0 <= i && i + IdLength <= |s| && forall k :: i <= k < i + IdLength ==> IsIdChar(s[k])
  }

  /** The first alternative "v=" matches at m and the group follows it. */
  predicate ViaV(s: string, m: int) {
    0 <= m && m + 2 <= |s| && s[m] == 'v' && s[m + 1] == '=' && IdAt(s, m + 2)
  }

  /** The second alternative "/" matches at m and the group follows it. */
  predicate ViaSlash(s: string, m: int) {
    0 <= m < |s| && s[m] == '/' && IdAt(s, m + 1)
  }

  /** The whole pattern matches starting at m (the trailing .* always matches). */
  predicate MatchesAt(s: string, m: int) {
    ViaV(s, m) || ViaSlash(s, m)
  }

  /** One regex attempt at m: the alternatives in order, yielding group 1. */
  function MatchAt(s: string, m: nat): Option<string> {
    if ViaV(s, m) then Some(s[m + 2..m + 2 + IdLength])
    else if ViaSlash(s, m) then Some(s[m + 1..m + 1 + IdLength])
    else None
  }

  /** re.search from position m onward: the first start at which an attempt succeeds. */
  function SearchFrom(s: string, m: nat): (r: Option<string>)
    ensures r.Some? ==> |r.value| == IdLength && forall k :: 0 <= k < |r.value| ==> IsIdChar(r.value[k])
    decreases |s| - m
  {
    if m >= |s| then None
    else if MatchAt(s, m).Some? then MatchAt(s, m)
    else SearchFrom(s, m + 1)
  }

  /** extract_video_id(url): group 1 of the search, or None when nothing matches. */
  function ExtractVideoId(url: string): (r: Option<string>)
    ensures r.Some? ==> |r.value| == IdLength && forall k :: 0 <= k < |r.value| ==> IsIdChar(r.value[k])
  {
    SearchFrom(url, 0)
  }

  /**
   * A video id in the sense the pattern gives it: eleven id characters at i,
   * immediately preceded by "v=" or by "/".
   */
  predicate IdStartsAt(s: string, i: int) {
    IdAt(s, i) && ((i >= 1 && s[i - 1] == '/') || (i >= 2 && s[i - 2] == 'v' && s[i - 1] == '='))
  }

  /** The search from m finds the first match start at or after m, or none when there is none. */
  lemma {:induction false} SearchFromLeftmost(s: string, m: nat)
    ensures SearchFrom(s, m) == None <==> forall k :: m <= k ==> !MatchesAt(s, k)
    ensures SearchFrom(s, m).Some? ==>
      exists k :: m <= k < |s| && MatchesAt(s, k) && SearchFrom(s, m) == MatchAt(s, k)
        && forall j :: m <= j < k ==> !MatchesAt(s, j)
    decreases |s| - m
  {
    if m < |s| && MatchAt(s, m).None? {
      SearchFromLeftmost(s, m + 1);
      if SearchFrom(s, m).Some? {
        var k :| m + 1 <= k < |s| && MatchesAt(s, k) && SearchFrom(s, m + 1) == MatchAt(s, k)
          && forall j :: m + 1 <= j < k ==> !MatchesAt(s, j);
        assert forall j :: m <= j < k ==> !MatchesAt(s, j);
      }
    } else if m < |s| {
      assert MatchesAt(s, m);
    }
  }

  /** A match start yields an id position two or one characters later, and every id position comes from one. */
  lemma MatchStartsAndIds(s: string)
    ensures forall m :: ViaV(s, m) ==> IdStartsAt(s, m + 2)
    ensures forall m :: ViaSlash(s, m) ==> IdStartsAt(s, m + 1)
    ensures forall i :: IdStartsAt(s, i) ==> MatchesAt(s, i - 1) || MatchesAt(s, i - 2)
  {
  }

  /**
   * extract_video_id returns None exactly when no id position exists; otherwise
   * it returns the eleven id characters at the leftmost id position.
   */
  lemma ExtractVideoIdLeftmost(url: string)
    ensures ExtractVideoId(url) == None <==> forall i :: !IdStartsAt(url, i)
    ensures ExtractVideoId(url).Some? ==>
      exists i :: IdStartsAt(url, i) && ExtractVideoId(url).value == url[i..i + IdLength]
        && forall j :: j < i ==> !IdStartsAt(url, j)
  {
    SearchFromLeftmost(url, 0);
    MatchStartsAndIds(url);
    if ExtractVideoId(url).Some? {
      var m :| 0 <= m < |url| && MatchesAt(url, m) && SearchFrom(url, 0) == MatchAt(url, m)
        && forall j :: 0 <= j < m ==> !MatchesAt(url, j);
      var i := if ViaV(url, m) then m + 2 else m + 1;
      assert IdStartsAt(url, i);
      // url[i - 1] is '/' or '=', neither of which is an id character
      assert !IsIdChar(url[i - 1]);
    }
  }
}
