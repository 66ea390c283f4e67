/** Extraction of a YouTube video id from a URL (`get_video_id`).
    Each of the three regular expressions is modelled by hand with the semantics
    of Python's `re.search`: the pattern is tried at every start position from
    left to right (including the end of the string) and the first position where
    it matches wins; `match.group(1)` is the text of the capture group. */
module VideoId {
  import opened Wrappers

  /** Length of a video id: the `{11}` repetition in every pattern. */
  const IdLength: nat := 11

  /** The character class `[0-9A-Za-z_-]`. */
  predicate IsIdChar(c: char) {
    ('0' <= c <= '9') || ('A' <= c <= 'Z') || ('a' <= c <= 'z') || c == '_' || c == '-'
  }

  /** `[0-9A-Za-z_-]{11}` matches in `s` starting at position `k`. */
  predicate IdRunAt(s: string, k: nat) {
    k + IdLength <= |s| && forall j :: k <= j < k + IdLength ==> IsIdChar(s[j])
  }

  /** Every character of `t` is in the id class. */
  predicate AllIdChars(t: string) {
    forall j :: 0 <= j < |t| ==> IsIdChar(t[j])
  }

  /** The three patterns, in the order `get_video_id` tries them. */
  datatype Pattern =
    | WatchOrPath  // (?:v=|\/)([0-9A-Za-z_-]{11}).*
    | Embed        // (?:embed\/)([0-9A-Za-z_-]{11})
    | BareId       // ^([0-9A-Za-z_-]{11})$

  const Patterns: seq<Pattern> := [WatchOrPath, Embed, BareId]

  /** A successful `re.search`: where the whole match starts and where group 1 starts. */
  datatype Match = Match(start: nat, group: nat)

  /** Attempt pattern `p` anchored at position `i` of `s`; on success, the start of group 1.
      `.*` after the group of the first pattern always matches, so it imposes nothing;
      without MULTILINE, `^` holds only at position 0 and `$` only at the end or just
      before a single trailing newline. */
  function MatchAt(p: Pattern, s: string, i: nat): (g: Option<nat>)
    ensures g.Some? ==> i <= g.value && IdRunAt(s, g.value)
  {
    match p
    case WatchOrPath =>
      if i + 2 <= |s| && s[i] == 'v' && s[i + 1] == '=' && IdRunAt(s, i + 2) then Some(i + 2)
      else if i < |s| && s[i] == '/' && IdRunAt(s, i + 1) then Some(i + 1)
      else None
    case Embed =>
      if i + 6 <= |s| && s[i..i + 6] == "embed/" && IdRunAt(s, i + 6) then Some(i + 6)
      else None
    case BareId =>
      if i == 0 && IdRunAt(s, 0) && (|s| == IdLength || (|s| == IdLength + 1 && s[IdLength] == '\n'))
      then Some(i)
      else None
  }

  /** `re.search(p, s[i..])` over start positions `i..|s|`: the leftmost position where
      `p` matches, or `None` exactly when it matches nowhere. */
  function Search(p: Pattern, s: string, i: nat): (r: Option<Match>)
    requires i <= |s|
    decreases |s| - i
    ensures r.Some? ==> i <= r.value.start <= |s| && MatchAt(p, s, r.value.start) == Some(r.value.group)
    ensures r.Some? ==> forall j :: i <= j < r.value.start ==> MatchAt(p, s, j).None?
    ensures r.None? <==> forall j :: i <= j <= |s| ==> MatchAt(p, s, j).None?
  {
    match MatchAt(p, s, i)
    case Some(g) => Some(Match(i, g))
    case None => if i == |s| then None else Search(p, s, i + 1)
  }

  /** The `for pattern in patterns` loop: the group of the first pattern that matches,
      or `None` when none does. */
  function FirstMatch(ps: seq<Pattern>, url: string): (r: Option<string>)
    ensures r.Some? ==> exists k: nat :: IdRunAt(url, k) && r.value == url[k..k + IdLength]
    ensures r.None? <==> forall n :: 0 <= n < |ps| ==> Search(ps[n], url, 0).None?
    ensures r.Some? ==> exists n :: 0 <= n < |ps| && FirstToMatch(ps, url, n)
                                   && r.value == GroupText(url, Search(ps[n], url, 0).value)
  {
    if ps == [] then None
    else
      match Search(ps[0], url, 0)
      case Some(m) =>
        assert FirstToMatch(ps, url, 0);
        Some(GroupText(url, m))
      case None =>
        var r := FirstMatch(ps[1..], url);
        assert forall n :: 1 <= n < |ps| ==> ps[n] == ps[1..][n - 1];
        if r.Some? then
          var n :| 0 <= n < |ps[1..]| && FirstToMatch(ps[1..], url, n)
                   && r.value == GroupText(url, Search(ps[1..][n], url, 0).value);
          assert FirstToMatch(ps, url, n + 1);
          r
        else r
  }

  /** Pattern `n` of `ps` is the first one that matches anywhere in `url`. */
  predicate FirstToMatch(ps: seq<Pattern>, url: string, n: nat)
    requires n < |ps|
  {
    Search(ps[n], url, 0).Some? && forall j :: 0 <= j < n ==> Search(ps[j], url, 0).None?
  }

  /** `match.group(1)`: the 11 characters of the group. */
  function GroupText(url: string, m: Match): string
    requires m.group + IdLength <= |url|
  {
    url[m.group..m.group + IdLength]
  }

  /** `get_video_id(url)`: a present result is 11 id characters taken contiguously from the URL. */
  function GetVideoId(url: string): (r: Option<string>)
    ensures r.Some? ==> |r.value| == IdLength && AllIdChars(r.value)
    ensures r.Some? ==> exists k: nat :: IdRunAt(url, k) && r.value == url[k..k + IdLength]
    ensures r.None? <==> forall n :: 0 <= n < |Patterns| ==> Search(Patterns[n], url, 0).None?
    ensures r.Some? ==> exists n :: 0 <= n < |Patterns| && FirstToMatch(Patterns, url, n)
                                   && r.value == GroupText(url, Search(Patterns[n], url, 0).value)
  {
    FirstMatch(Patterns, url)
  }

  /** Any position where the embed pattern matches is one position before a place where
      the first pattern matches (at the `/` of `embed/`), with the same group. */
  lemma EmbedImpliesWatchOrPath(s: string, i: nat)
    requires MatchAt(Embed, s, i).Some?
    ensures i + 5 <= |s| && MatchAt(WatchOrPath, s, i + 5) == MatchAt(Embed, s, i)
  {
    assert s[i + 5] == s[i..i + 6][5] == '/';
  }

  /** The embed pattern never decides the result: deleting it from the list changes nothing. */
  lemma EmbedNeverDecides(url: string)
    ensures GetVideoId(url) == FirstMatch([WatchOrPath, BareId], url)
  {
    assert Patterns[1..] == [Embed, BareId] && Patterns[1..][1..] == [BareId];
    assert [WatchOrPath, BareId][1..] == [BareId];
    if Search(WatchOrPath, url, 0).None? {
      if Search(Embed, url, 0).Some? {
        var i := Search(Embed, url, 0).value.start;
        EmbedImpliesWatchOrPath(url, i);
        assert false;
      }
    }
  }

  /** The first pattern decides whenever its marker occurs: if `url` is `pre`, then `v=` or
      `/`, then 11 id characters, then anything, and the first pattern matches nowhere
      inside `pre`, the result is those 11 characters. `post` is irrelevant, including
      further id characters (a longer run is cut to its first 11). */
  lemma LeftmostWatchOrPathWins(pre: string, marker: string, id: string, post: string)
    requires marker == "v=" || marker == "/"
    requires |id| == IdLength && AllIdChars(id)
    requires forall j :: 0 <= j < |pre| ==> MatchAt(WatchOrPath, pre + marker + id + post, j).None?
    ensures GetVideoId(pre + marker + id + post) == Some(id)
  {
    var url := pre + marker + id + post;
    var g := |pre| + |marker|;
    assert url[g..g + IdLength] == id;
    assert forall j :: g <= j < g + IdLength ==> url[j] == id[j - g];
    assert IdRunAt(url, g);
    if marker == "v=" {
      assert url[|pre|] == 'v' && url[|pre| + 1] == '=';
    } else {
      assert url[|pre|] == '/';
    }
    assert MatchAt(WatchOrPath, url, |pre|) == Some(g);
    var m := Search(WatchOrPath, url, 0);
    assert m.Some? && m.value.start == |pre|;
  }

  /** For text without `/` or `=`, only the anchored bare-id pattern can match: the result
      is the 11 leading characters exactly when the text is 11 id characters, optionally
      followed by one newline (Python's `$`), and `None` otherwise. */
  lemma BareIdAnchored(s: string)
    requires forall j :: 0 <= j < |s| ==> s[j] != '/' && s[j] != '='
    ensures GetVideoId(s) ==
      if IdRunAt(s, 0) && (|s| == IdLength || (|s| == IdLength + 1 && s[IdLength] == '\n'))
      then Some(s[..IdLength])
      else None
  {
    assert Patterns[1..] == [Embed, BareId] && Patterns[1..][1..] == [BareId] && Patterns[1..][1..][1..] == [];
    forall j | 0 <= j <= |s|
      ensures MatchAt(WatchOrPath, s, j).None? && MatchAt(Embed, s, j).None?
    {
      if j + 6 <= |s| {
        assert s[j..j + 6][5] == s[j + 5];
      }
    }
    assert Search(WatchOrPath, s, 0).None? && Search(Embed, s, 0).None?;
    assert GetVideoId(s) == FirstMatch([BareId], s);
    match Search(BareId, s, 0)
    case Some(m) =>
      assert m.start == 0 && m.group == 0;
      assert s[0..IdLength] == s[..IdLength];
    case None =>
      assert MatchAt(BareId, s, 0).None?;
  }

  /** A string that is exactly a video id, with or without one trailing newline, yields that id. */
  lemma BareIdYieldsItself(id: string)
    requires |id| == IdLength && AllIdChars(id)
    ensures GetVideoId(id) == Some(id)
    ensures GetVideoId(id + "\n") == Some(id)
  {
    assert forall j :: 0 <= j < |id| ==> id[j] != '/' && id[j] != '=';
    BareIdAnchored(id);
    assert id[..IdLength] == id;
    var s := id + "\n";
    assert forall j :: 0 <= j < |s| ==> s[j] == (if j < |id| then id[j] else '\n');
    BareIdAnchored(s);
    assert s[..IdLength] == id;
  }

  /** `$` accepts at most one trailing newline: anything else after a bare id yields `None`. */
  lemma BareIdRejectsOtherTrailers(id: string, tail: string)
    requires |id| == IdLength && AllIdChars(id)
    requires tail != [] && tail != "\n"
    requires forall j :: 0 <= j < |tail| ==> tail[j] != '/' && tail[j] != '='
    ensures GetVideoId(id + tail) == None
  {
    var s := id + tail;
    forall j | 0 <= j < |s| ensures s[j] != '/' && s[j] != '=' {
      if j >= |id| { assert s[j] == tail[j - |id|]; }
    }
    BareIdAnchored(s);
    if |s| == IdLength + 1 {
      assert tail == [s[IdLength]];
    }
  }
}
