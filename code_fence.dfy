/** Cleaning of the language model's reply before it is parsed as JSON
    (the block in `generate_shorts_script` that removes a Markdown code fence):
    the reply is stripped of surrounding whitespace; if it then starts with three
    backticks, only the text between the first and the second fence is kept
    (`split("```")[1]`), one leading `json` tag is dropped and the rest is stripped. */
module CodeFence {
  import opened Wrappers

  /** The Markdown fence delimiter. */
  const Fence: string := "```"

  /** The language tag that may follow an opening fence (case-sensitive). */
  const JsonTag: string := "json"

  // ---------------------------------------------------------------------------
  // str.strip()
  // ---------------------------------------------------------------------------

  /** Python's `str.isspace` for one character (CPython's whitespace table). */
  predicate IsSpace(c: char) {
    ('\t' <= c <= '\r') || ('\U{1C}' <= c <= '\U{1F}') || c == ' '
    || c == '\U{85}' || c == '\U{A0}' || c == '\U{1680}' || ('\U{2000}' <= c <= '\U{200A}')
    || c == '\U{2028}' || c == '\U{2029}' || c == '\U{202F}' || c == '\U{205F}' || c == '\U{3000}'
  }

  predicate AllSpace(s: string) {
    forall k :: 0 <= k < |s| ==> IsSpace(s[k])
  }

  /** Neither begins nor ends with whitespace. */
  predicate IsTrimmed(s: string) {
    s == [] || (!IsSpace(s[0]) && !IsSpace(s[|s| - 1]))
  }

  /** The first position at or after `i` that does not hold whitespace (or `|s|`). */
  function TextStart(s: string, i: nat): (r: nat)
    requires i <= |s|
    decreases |s| - i
    ensures i <= r <= |s|
    ensures forall k :: i <= k < r ==> IsSpace(s[k])
    ensures r == |s| || !IsSpace(s[r])
  {
    if i < |s| && IsSpace(s[i]) then TextStart(s, i + 1) else i
  }

  /** The position just after the last character before `j`, and not before `lo`,
      that does not hold whitespace (or `lo`). */
  function TextEnd(s: string, lo: nat, j: nat): (r: nat)
    requires lo <= j <= |s|
    decreases j
    ensures lo <= r <= j
    ensures forall k :: r <= k < j ==> IsSpace(s[k])
    ensures r == lo || !IsSpace(s[r - 1])
  {
    if lo < j && IsSpace(s[j - 1]) then TextEnd(s, lo, j - 1) else j
  }

  /** `str.strip()`: the text with leading and trailing whitespace removed. */
  function Trim(s: string): (r: string)
    ensures |r| <= |s| && IsTrimmed(r)
  {
    var i := TextStart(s, 0);
    s[i..TextEnd(s, i, |s|)]
  }

  /** What `str.strip()` removes is whitespace on either side, and it keeps one
      contiguous piece of the text. */
  lemma TrimRemovesOnlySpace(s: string)
    ensures var i := TextStart(s, 0); var j := TextEnd(s, i, |s|);
      Trim(s) == s[i..j] && AllSpace(s[..i]) && AllSpace(s[j..])
  {
  }

  /** The partner of `Trim`: a trimmed text surrounded by whitespace strips to itself,
      so the piece `Trim` returns is the only one with the properties above. */
  lemma TrimIgnoresSurroundingSpace(p: string, m: string, q: string)
    requires AllSpace(p) && AllSpace(q) && IsTrimmed(m)
    ensures Trim(p + m + q) == m
  {
    var x := p + m + q;
    var i := TextStart(x, 0);
    var j := TextEnd(x, i, |x|);
    if m == [] {
      assert forall k :: 0 <= k < |x| ==> IsSpace(x[k]) by {
        forall k | 0 <= k < |x| ensures IsSpace(x[k]) {
          if k < |p| { assert x[k] == p[k]; } else { assert x[k] == q[k - |p|]; }
        }
      }
      assert i == |x|;
    } else {
      assert x[|p|] == m[0];
      assert x[|p| + |m| - 1] == m[|m| - 1];
      assert forall k :: 0 <= k < |p| ==> x[k] == p[k];
      assert forall k :: |p| + |m| <= k < |x| ==> x[k] == q[k - |p| - |m|];
      assert i == |p|;
      assert j == |p| + |m|;
      assert x[i..j] == m;
    }
  }

  /** `str.strip()` leaves a trimmed text unchanged. */
  lemma TrimOfTrimmed(m: string)
    requires IsTrimmed(m)
    ensures Trim(m) == m
  {
    assert m == [] + m + [];
    TrimIgnoresSurroundingSpace([], m, []);
  }

  /** `str.strip()` is idempotent. */
  lemma TrimIdempotent(s: string)
    ensures Trim(Trim(s)) == Trim(s)
  {
    TrimOfTrimmed(Trim(s));
  }

  /** Trailing whitespace does not change what `str.strip()` returns. */
  lemma TrimAppendSpace(s: string, tail: string)
    requires AllSpace(tail)
    ensures Trim(s + tail) == Trim(s)
  {
    TrimRemovesOnlySpace(s);
    var i := TextStart(s, 0);
    var j := TextEnd(s, i, |s|);
    var q := s[j..] + tail;
    assert AllSpace(q);
    assert s + tail == s[..i] + s[i..j] + q by { CutInThree(s, i, j); }
    TrimIgnoresSurroundingSpace(s[..i], s[i..j], q);
  }

  lemma CutInThree(s: string, i: nat, j: nat)
    requires i <= j <= |s|
    ensures s == s[..i] + s[i..j] + s[j..]
  {
  }

  /** Stripping a text that starts, after whitespace, with a block that begins and ends
      with non-whitespace keeps the whole block and a prefix of what follows it, and
      drops only whitespace from the end. */
  lemma TrimKeepsLeadingBlock(ws: string, m: string, rest: string)
    requires AllSpace(ws) && m != [] && IsTrimmed(m)
    ensures exists k :: 0 <= k <= |rest| && Trim(ws + m + rest) == m + rest[..k] && AllSpace(rest[k..])
  {
    var x := ws + m + rest;
    var i := TextStart(x, 0);
    var j := TextEnd(x, i, |x|);
    assert x[|ws|] == m[0];
    assert forall k :: 0 <= k < |ws| ==> x[k] == ws[k];
    assert i == |ws|;
    assert x[|ws| + |m| - 1] == m[|m| - 1];
    assert j >= |ws| + |m|;
    var k := j - |ws| - |m|;
    SliceAfterPrefix(ws, m, rest, k);
    TrimRemovesOnlySpace(x);
  }

  lemma SliceAfterPrefix(ws: string, m: string, rest: string, k: nat)
    requires k <= |rest|
    ensures (ws + m + rest)[|ws|..|ws| + |m| + k] == m + rest[..k]
    ensures (ws + m + rest)[|ws| + |m| + k..] == rest[k..]
  {
  }

  // ---------------------------------------------------------------------------
  // str.find / str.split on the fence
  // ---------------------------------------------------------------------------

  /** A fence occupies positions `k`, `k+1` and `k+2` of `s`. */
  predicate FenceAt(s: string, k: nat) {
    k + 3 <= |s| && s[k] == '`' && s[k + 1] == '`' && s[k + 2] == '`'
  }

  predicate ContainsFence(s: string) {
    exists k: nat :: k < |s| && FenceAt(s, k)
  }

  /** `s.find("```", from)`: the first fence at or after `from`, if any. */
  function FindFence(s: string, from: nat): (r: Option<nat>)
    requires from <= |s|
    decreases |s| - from
    ensures r.Some? ==> from <= r.value && FenceAt(s, r.value)
    ensures r.Some? ==> forall k: nat :: from <= k < r.value ==> !FenceAt(s, k)
    ensures r.None? <==> forall k: nat :: from <= k ==> !FenceAt(s, k)
  {
    if FenceAt(s, from) then Some(from)
    else if from + 3 > |s| then None
    else FindFence(s, from + 1)
  }

  /** A piece of a text without a fence has no fence either. */
  lemma SliceKeepsNoFence(s: string, i: nat, j: nat)
    requires i <= j <= |s| && !ContainsFence(s)
    ensures !ContainsFence(s[i..j])
  {
    forall k: nat | k < j - i && FenceAt(s[i..j], k) ensures FenceAt(s, i + k) {
      assert s[i..j][k] == s[i + k] && s[i..j][k + 1] == s[i + k + 1] && s[i..j][k + 2] == s[i + k + 2];
    }
  }

  /** A fence at `k` cuts `s` into the text before it, the fence and the text after it. */
  lemma FenceSplitsAt(s: string, k: nat)
    requires FenceAt(s, k)
    ensures s == s[..k] + Fence + s[k + 3..]
  {
    assert s[k..k + 3] == Fence;
    assert s == s[..k] + s[k..k + 3] + s[k + 3..];
  }

  /** `s.split("```")`: the pieces between successive non-overlapping fences, left to right;
      no piece contains a fence, and there is more than one piece exactly when `s` has a fence. */
  function SplitOnFence(s: string): (parts: seq<string>)
    decreases |s|
    ensures |parts| >= 1
    ensures forall n :: 0 <= n < |parts| ==> !ContainsFence(parts[n])
    ensures |parts| == 1 <==> !ContainsFence(s)
    ensures FindFence(s, 0).Some? ==> parts[0] == s[..FindFence(s, 0).value]
  {
    match FindFence(s, 0)
    case None => [s]
    case Some(k) =>
      assert !ContainsFence(s[..k]) by {
        forall j: nat | j < k && FenceAt(s[..k], j) ensures FenceAt(s, j) {
          assert s[..k][j] == s[j] && s[..k][j + 1] == s[j + 1] && s[..k][j + 2] == s[j + 2];
        }
      }
      [s[..k]] + SplitOnFence(s[k + 3..])
  }

  /** `"```".join(parts)`. */
  function JoinWithFence(parts: seq<string>): string
    requires |parts| >= 1
  {
    if |parts| == 1 then parts[0] else parts[0] + Fence + JoinWithFence(parts[1..])
  }

  /** Joining a leading piece onto further pieces puts one fence between them. */
  lemma JoinLeadingPiece(a: string, parts: seq<string>)
    requires |parts| >= 1
    ensures JoinWithFence([a] + parts) == a + Fence + JoinWithFence(parts)
  {
    var q := [a] + parts;
    assert q[0] == a && q[1..] == parts;
  }

  /** Splitting on fences loses nothing: joining the pieces gives back the text. */
  lemma {:induction false} SplitJoinRoundTrip(s: string)
    ensures JoinWithFence(SplitOnFence(s)) == s
    decreases |s|
  {
    match FindFence(s, 0)
    case None =>
      assert SplitOnFence(s) == [s];
    case Some(k) =>
      SplitJoinRoundTrip(s[k + 3..]);
      SplitAtFirstFence(s, k);
      JoinLeadingPiece(s[..k], SplitOnFence(s[k + 3..]));
      FenceSplitsAt(s, k);
  }

  /** The first piece ends at the first fence; the rest are the pieces after it. */
  lemma SplitAtFirstFence(s: string, k: nat)
    requires FindFence(s, 0) == Some(k)
    ensures k + 3 <= |s|
    ensures SplitOnFence(s) == [s[..k]] + SplitOnFence(s[k + 3..])
  {
  }

  /** A closing fence is found right after a body that has no fence and does not end in a backtick. */
  lemma ClosingFenceFound(body: string, rest: string)
    requires !ContainsFence(body) && (body == [] || body[|body| - 1] != '`')
    ensures FindFence(body + Fence + rest, 0) == Some(|body|)
  {
    var s := body + Fence + rest;
    assert s[|body|] == '`' && s[|body| + 1] == '`' && s[|body| + 2] == '`';
    assert FenceAt(s, |body|);
    forall k: nat | k < |body| ensures !FenceAt(s, k) {
      if k + 3 <= |body| {
        assert s[k] == body[k] && s[k + 1] == body[k + 1] && s[k + 2] == body[k + 2];
        assert !FenceAt(body, k);
      } else {
        assert s[|body| - 1] == body[|body| - 1] != '`';
        assert k == |body| - 1 || k + 1 == |body| - 1 || k + 2 == |body| - 1;
      }
    }
    var r := FindFence(s, 0);
    assert r.Some?;
    assert r.value == |body|;
  }

  /** A text that opens with a fence splits into an empty first piece and the pieces of the rest. */
  lemma LeadingFence(t: string)
    ensures SplitOnFence(Fence + t) == [""] + SplitOnFence(t)
  {
    var s := Fence + t;
    assert FenceAt(s, 0);
    assert s[3..] == t;
  }

  /** The first piece of a body followed by a closing fence is the body. */
  lemma FirstPieceBeforeClosingFence(body: string, rest: string)
    requires !ContainsFence(body) && (body == [] || body[|body| - 1] != '`')
    ensures SplitOnFence(body + Fence + rest)[0] == body
  {
    var after := body + Fence + rest;
    ClosingFenceFound(body, rest);
    assert after[..|body|] == body;
  }

  /** The second piece of a closed fenced block is its body. */
  lemma SecondPieceOfClosedBlock(body: string, rest: string)
    requires !ContainsFence(body) && (body == [] || body[|body| - 1] != '`')
    ensures |SplitOnFence(Fence + body + Fence + rest)| >= 2
    ensures SplitOnFence(Fence + body + Fence + rest)[1] == body
  {
    var after := body + Fence + rest;
    assert Fence + body + Fence + rest == Fence + after;
    LeadingFence(after);
    FirstPieceBeforeClosingFence(body, rest);
  }

  /** The second piece of an unclosed fenced block is everything after the fence. */
  lemma SecondPieceOfUnclosedBlock(body: string)
    requires !ContainsFence(body)
    ensures |SplitOnFence(Fence + body)| >= 2
    ensures SplitOnFence(Fence + body)[1] == body
  {
    LeadingFence(body);
  }

  // ---------------------------------------------------------------------------
  // The reply cleanup
  // ---------------------------------------------------------------------------

  /** Drops one leading `json` tag (`content[4:]` after `startswith("json")`). */
  function DropJsonTag(s: string): (r: string)
    ensures JsonTag <= s ==> s == JsonTag + r
    ensures !(JsonTag <= s) ==> r == s
  {
    if JsonTag <= s then s[|JsonTag|..] else s
  }

  lemma DropJsonTagKeepsNoFence(s: string)
    requires !ContainsFence(s)
    ensures !ContainsFence(DropJsonTag(s))
  {
    if JsonTag <= s {
      SliceKeepsNoFence(s, |JsonTag|, |s|);
      assert s[|JsonTag|..] == s[|JsonTag|..|s|];
    }
  }

  lemma TrimKeepsNoFence(s: string)
    requires !ContainsFence(s)
    ensures !ContainsFence(Trim(s))
  {
    var i := TextStart(s, 0);
    SliceKeepsNoFence(s, i, TextEnd(s, i, |s|));
  }

  /** The reply cleanup: strip; if fenced, keep the text between the first two fences,
      drop a leading `json` tag and strip again. The result is always trimmed; a fenced
      reply leaves no fence behind; an unfenced reply is only stripped. */
  function StripFences(reply: string): (r: string)
    ensures IsTrimmed(r)
    ensures Fence <= Trim(reply) ==> !ContainsFence(r)
    ensures !(Fence <= Trim(reply)) ==> r == Trim(reply)
  {
    var content := Trim(reply);
    if Fence <= content then
      assert ContainsFence(content) by { assert FenceAt(content, 0); }
      var inner := SplitOnFence(content)[1];
      DropJsonTagKeepsNoFence(inner);
      TrimKeepsNoFence(DropJsonTag(inner));
      Trim(DropJsonTag(inner))
    else content
  }

  /** Cleaning an already cleaned reply changes nothing. */
  lemma StripFencesIdempotent(reply: string)
    ensures StripFences(StripFences(reply)) == StripFences(reply)
  {
    var r := StripFences(reply);
    TrimOfTrimmed(r);
    if Fence <= r {
      assert FenceAt(r, 0);
      assert false;
    }
  }

  /** A reply that is whitespace, a fenced block and anything after it: the result is the
      stripped body with a leading `json` tag removed; what follows the closing fence is
      ignored. */
  lemma ClosedFenceYieldsBody(ws: string, body: string, rest: string)
    requires AllSpace(ws)
    requires !ContainsFence(body) && (body == [] || body[|body| - 1] != '`')
    ensures StripFences(ws + Fence + body + Fence + rest) == Trim(DropJsonTag(body))
  {
    var block := Fence + body + Fence;
    assert IsTrimmed(block) by { assert block[0] == '`' && block[|block| - 1] == '`'; }
    assert ws + Fence + body + Fence + rest == ws + block + rest;
    TrimKeepsLeadingBlock(ws, block, rest);
    var k :| 0 <= k <= |rest| && Trim(ws + block + rest) == block + rest[..k];
    assert block + rest[..k] == Fence + body + Fence + rest[..k];
    SecondPieceOfClosedBlock(body, rest[..k]);
  }

  /** A reply with an opening fence and no closing one: the result is everything after
      the opening fence, stripped, with a leading `json` tag removed. */
  lemma UnclosedFenceYieldsRest(ws: string, body: string)
    requires AllSpace(ws) && !ContainsFence(body)
    ensures StripFences(ws + Fence + body) == Trim(DropJsonTag(body))
  {
    assert IsTrimmed(Fence) by { assert Fence[0] == '`' && Fence[2] == '`'; }
    TrimKeepsLeadingBlock(ws, Fence, body);
    var k :| 0 <= k <= |body| && Trim(ws + Fence + body) == Fence + body[..k] && AllSpace(body[k..]);
    SliceKeepsNoFence(body, 0, k);
    assert body[0..k] == body[..k];
    SecondPieceOfUnclosedBlock(body[..k]);
    DropTagBeforeSpace(body, k);
    TrimAppendSpace(DropJsonTag(body[..k]), body[k..]);
  }

  /** Whitespace at the end of a text is still at the end once a `json` tag is dropped. */
  lemma DropTagBeforeSpace(body: string, k: nat)
    requires k <= |body| && AllSpace(body[k..])
    ensures DropJsonTag(body) == DropJsonTag(body[..k]) + body[k..]
  {
    if JsonTag <= body {
      assert k >= |JsonTag| by {
        assert body[|JsonTag| - 1] == 'n' && !IsSpace('n');
        forall idx | k <= idx < |body| ensures IsSpace(body[idx]) { assert body[k..][idx - k] == body[idx]; }
      }
      assert body[..k][..|JsonTag|] == JsonTag;
      assert body[|JsonTag|..] == body[..k][|JsonTag|..] + body[k..];
    } else {
      assert !(JsonTag <= body[..k]) by {
        if k >= |JsonTag| { assert body[..|JsonTag|] == body[..k][..|JsonTag|]; }
      }
      assert body == body[..k] + body[k..];
    }
  }
}
