/** Picking the JSON candidate out of the model's free text
    (services/geminiService.ts, lines 83-96).

    The source matches /```json\s*([\s\S]*?)\s*```/ and, when that captures a
    non-empty body, uses the body; otherwise it slices from the first `{` to
    the last `}`; otherwise it keeps the text. The regular expression is not
    run by an engine here: its one match is described directly. The leftmost
    match starts at the first "```json"; the greedy `\s*` eats all whitespace
    after it; the lazy body stops at the first "```" after that; the second
    `\s*` takes the whitespace run before that closer. */
module Extraction {
  import opened Wrappers
  import opened Text

  const FenceOpen := "```json"
  const FenceClose := "```"

  /** A match of the fence pattern: the opener at `open`, the captured body
      `text[bodyStart..bodyEnd]` and the closer at `close`. */
  datatype FenceMatch = FenceMatch(open: nat, bodyStart: nat, bodyEnd: nat, close: nat)

  /** What the regular expression's first match is, stated position by position. */
  ghost predicate IsFenceMatch(text: string, m: FenceMatch) {
    // the leftmost opener
    && OccursAt(text, FenceOpen, m.open)
    && (forall k :: 0 <= k < m.open ==> !OccursAt(text, FenceOpen, k))
    && m.open + |FenceOpen| <= m.bodyStart <= m.bodyEnd <= m.close
    && OccursAt(text, FenceClose, m.close)
    // the first `\s*` is greedy
    && AllSpace(text[m.open + |FenceOpen|..m.bodyStart])
    && !IsSpace(text[m.bodyStart])
    // the lazy body ends at the first closer
    && (forall k :: m.bodyStart <= k < m.close ==> !OccursAt(text, FenceClose, k))
    // the second `\s*` takes the whole whitespace run before the closer
    && AllSpace(text[m.bodyEnd..m.close])
    && (m.bodyEnd == m.bodyStart || !IsSpace(text[m.bodyEnd - 1]))
  }

  /** The pattern matches somewhere: some "```" starts at or after the end of some "```json". */
  ghost predicate HasFencePair(text: string) {
    exists p: nat, c: nat :: OccursAt(text, FenceOpen, p) && OccursAt(text, FenceClose, c) && p + |FenceOpen| <= c
  }

  /** `text.match(/```json\s*([\s\S]*?)\s*```/)`. */
  function MatchFence(text: string): (m: Option<FenceMatch>)
    ensures m.Some? ==> IsFenceMatch(text, m.value)
    ensures m.Some? <==> HasFencePair(text)
  {
    var p := IndexOf(text, FenceOpen);
    if p == -1 then None
    else
      var q := SkipSpaces(text, p + |FenceOpen|);
      var c := IndexOfFrom(text, FenceClose, q);
      if c == -1 then
        NoPairAfterFirstOpener(text, p, q);
        None
      else
        var m := FenceMatch(p, q, BackOverSpaces(text, q, c), c);
        assert text[c] == text[c..c + 3][0];
        assert OccursAt(text, FenceOpen, p) && OccursAt(text, FenceClose, c);
        Some(m)
  }

  /** If the first opener has no closer after its whitespace run, no opener has
      one: a closer after a later opener would also follow the first. */
  lemma NoPairAfterFirstOpener(text: string, p0: nat, q0: nat)
    requires OccursAt(text, FenceOpen, p0)
    requires forall k :: 0 <= k < p0 ==> !OccursAt(text, FenceOpen, k)
    requires p0 + |FenceOpen| <= q0 <= |text| && AllSpace(text[p0 + |FenceOpen|..q0])
    requires forall k :: q0 <= k <= |text| ==> !OccursAt(text, FenceClose, k)
    ensures !HasFencePair(text)
  {
    forall k | p0 + |FenceOpen| <= k < q0 ensures IsSpace(text[k]) {
      assert text[p0 + |FenceOpen|..q0][k - p0 - |FenceOpen|] == text[k];
    }
    forall p: nat, c: nat | OccursAt(text, FenceOpen, p) && OccursAt(text, FenceClose, c)
      ensures c < p + |FenceOpen|
    {
      assert text[c] == text[c..c + 3][0];
    }
  }

  /** Two positions that both end a maximal whitespace run starting at `from` coincide. */
  lemma WhitespaceRunEndUnique(text: string, from: nat, a: nat, b: nat)
    requires from <= a < |text| && from <= b < |text|
    requires AllSpace(text[from..a]) && !IsSpace(text[a])
    requires AllSpace(text[from..b]) && !IsSpace(text[b])
    ensures a == b
  {
    forall k | from <= k < a ensures IsSpace(text[k]) {
      assert text[from..a][k - from] == text[k];
    }
    forall k | from <= k < b ensures IsSpace(text[k]) {
      assert text[from..b][k - from] == text[k];
    }
  }

  /** Two positions that both start a maximal whitespace run ending at `to` coincide. */
  lemma WhitespaceRunStartUnique(text: string, lo: nat, to: nat, a: nat, b: nat)
    requires lo <= a <= to <= |text| && lo <= b <= to
    requires AllSpace(text[a..to]) && (a == lo || !IsSpace(text[a - 1]))
    requires AllSpace(text[b..to]) && (b == lo || !IsSpace(text[b - 1]))
    ensures a == b
  {
    forall k | a <= k < to ensures IsSpace(text[k]) {
      assert text[a..to][k - a] == text[k];
    }
    forall k | b <= k < to ensures IsSpace(text[k]) {
      assert text[b..to][k - b] == text[k];
    }
  }

  /** The description of the match pins it down: there is at most one. */
  lemma FenceMatchUnique(text: string, m1: FenceMatch, m2: FenceMatch)
    requires IsFenceMatch(text, m1) && IsFenceMatch(text, m2)
    ensures m1 == m2
  {
    assert m1.open == m2.open;
    WhitespaceRunEndUnique(text, m1.open + |FenceOpen|, m1.bodyStart, m2.bodyStart);
    assert m1.close == m2.close;
    WhitespaceRunStartUnique(text, m1.bodyStart, m1.close, m1.bodyEnd, m2.bodyEnd);
  }

  /** The fence captured a non-empty body (`jsonMatch && jsonMatch[1]`). */
  predicate HasFencedBody(text: string) {
    var m := MatchFence(text);
    m.Some? && m.value.bodyStart < m.value.bodyEnd
  }

  /** The captured body, `jsonMatch[1]`. */
  function FencedBody(text: string): string
    requires HasFencedBody(text)
  {
    var m := MatchFence(text).value;
    text[m.bodyStart..m.bodyEnd]
  }

  /** The fallback: from the first `{` through the last `}` when both exist
      (through `substring`, so swapped when the `}` comes first), else the
      text. It is never longer than the text. */
  function BraceCandidate(text: string): (r: string)
    ensures |r| <= |text|
  {
    BraceSlice(text, IndexOf(text, "{"), LastIndexOf(text, '}'))
  }

  /** The brace rule once the two indices are known. */
  function BraceSlice(text: string, startIndex: int, endIndex: int): string {
    if startIndex > -1 && endIndex > -1 then Substring(text, startIndex, endIndex + 1) else text
  }

  /** The text `JSON.parse` is given. It is never longer than the reply. */
  function JsonCandidate(text: string): (r: string)
    ensures |r| <= |text|
  {
    if HasFencedBody(text) then FencedBody(text) else BraceCandidate(text)
  }

  /** Whichever rule applies, the candidate is a contiguous piece of the reply. */
  lemma CandidateIsInfix(text: string)
    ensures IsInfix(JsonCandidate(text), text)
  {
    if HasFencedBody(text) {
      var m := MatchFence(text).value;
      assert OccursAt(text, text[m.bodyStart..m.bodyEnd], m.bodyStart);
    } else {
      BraceCandidateIsInfix(text);
    }
  }

  lemma BraceCandidateIsInfix(text: string)
    ensures IsInfix(BraceCandidate(text), text)
  {
    var startIndex := IndexOf(text, "{");
    var endIndex := LastIndexOf(text, '}');
    if startIndex > -1 && endIndex > -1 {
      var lo := if startIndex <= endIndex + 1 then startIndex else endIndex + 1;
      var hi := if startIndex <= endIndex + 1 then endIndex + 1 else startIndex;
      assert OccursAt(text, text[lo..hi], lo);
    } else {
      assert OccursAt(text, text, 0);
    }
  }

  /** A one-character pattern occurs exactly where that character is. */
  lemma OccursAtChar(text: string, c: char, k: nat)
    requires k < |text|
    ensures OccursAt(text, [c], k) <==> text[k] == c
  {
    assert |text[k..k + 1]| == 1 && text[k..k + 1][0] == text[k];
  }

  /** `text.indexOf('{')`: the first `{`, or -1 when there is none. */
  lemma FirstBrace(text: string)
    ensures var s := IndexOf(text, "{");
            && (s == -1 <==> '{' !in text)
            && (s != -1 ==> 0 <= s < |text| && text[s] == '{' && '{' !in text[..s])
  {
    var s := IndexOf(text, "{");
    if s != -1 {
      OccursAtChar(text, '{', s);
      forall k | 0 <= k < s ensures text[k] != '{' {
        OccursAtChar(text, '{', k);
      }
      assert forall k :: 0 <= k < s ==> text[..s][k] == text[k];
    } else {
      forall k | 0 <= k < |text| ensures text[k] != '{' {
        OccursAtChar(text, '{', k);
      }
    }
  }

  /** A non-empty captured body is the candidate. */
  lemma CandidateIsFencedBody(text: string, m: FenceMatch)
    requires IsFenceMatch(text, m) && m.bodyStart < m.bodyEnd
    ensures JsonCandidate(text) == text[m.bodyStart..m.bodyEnd]
  {
    FenceMatchUnique(text, m, MatchFence(text).value);
  }

  /** The captured body has no whitespace at either end and no "```" inside. */
  lemma FencedBodyShape(text: string, m: FenceMatch)
    requires IsFenceMatch(text, m) && m.bodyStart < m.bodyEnd
    ensures var r := text[m.bodyStart..m.bodyEnd];
            && !IsSpace(r[0]) && !IsSpace(r[|r| - 1])
            && forall k :: 0 <= k < |r| ==> !OccursAt(r, FenceClose, k)
  {
    var r := text[m.bodyStart..m.bodyEnd];
    assert r[0] == text[m.bodyStart] && r[|r| - 1] == text[m.bodyEnd - 1];
    forall k | 0 <= k < |r| ensures !OccursAt(r, FenceClose, k) {
      assert !OccursAt(text, FenceClose, m.bodyStart + k);
      OccursInSlice(text, FenceClose, m.bodyStart, m.bodyEnd, k);
    }
  }

  /** With a non-empty fenced body, the candidate is that body: non-empty, with
      no whitespace at either end and no "```" inside. */
  lemma CandidateFromFence(text: string, m: FenceMatch)
    requires IsFenceMatch(text, m) && m.bodyStart < m.bodyEnd
    ensures JsonCandidate(text) == text[m.bodyStart..m.bodyEnd]
    ensures var r := JsonCandidate(text); r != [] && !IsSpace(r[0]) && !IsSpace(r[|r| - 1])
    ensures forall k :: 0 <= k < |JsonCandidate(text)| ==> !OccursAt(JsonCandidate(text), FenceClose, k)
  {
    CandidateIsFencedBody(text, m);
    FencedBodyShape(text, m);
  }

  /** Without a non-empty fenced body the brace rule decides. */
  lemma UnfencedCandidate(text: string)
    requires !HasFencedBody(text)
    ensures JsonCandidate(text) == BraceCandidate(text)
  {
  }

  /** The brace rule with the first `{` at or before the last `}`. */
  lemma BraceSpan(text: string)
    requires '{' in text && '}' in text
    requires IndexOf(text, "{") <= LastIndexOf(text, '}')
    ensures var s := IndexOf(text, "{");
            var e := LastIndexOf(text, '}');
            && 0 <= s <= e < |text|
            && BraceCandidate(text) == text[s..e + 1]
            && '{' !in text[..s] && '}' !in text[e + 1..]
            && text[s] == '{' && text[e] == '}'
  {
    FirstBrace(text);
    LastBrace(text);
    BraceSliceInOrder(text, IndexOf(text, "{"), LastIndexOf(text, '}'));
  }

  /** Both braces found, in order: `substring` is the plain slice between them. */
  lemma BraceSliceInOrder(text: string, s: int, e: int)
    requires 0 <= s <= e < |text|
    ensures BraceSlice(text, s, e) == text[s..e + 1]
  {
    SubstringInRange(text, s, e + 1);
  }

  /** `text.lastIndexOf('}')` when there is a `}`: no `}` follows it. */
  lemma LastBrace(text: string)
    requires '}' in text
    ensures var e := LastIndexOf(text, '}');
            0 <= e < |text| && text[e] == '}' && '}' !in text[e + 1..]
  {
    var e := LastIndexOf(text, '}');
    NotInSlice(text, '}', e + 1, |text|);
    assert text[e + 1..|text|] == text[e + 1..];
  }

  /** Without a non-empty fenced body, and with the first `{` at or before the
      last `}`, the candidate runs from the first `{` through the last `}`:
      it opens with `{`, closes with `}`, and nothing before it holds a `{`
      and nothing after it a `}`. */
  lemma CandidateFromBraces(text: string)
    requires !HasFencedBody(text)
    requires '{' in text && '}' in text
    requires IndexOf(text, "{") <= LastIndexOf(text, '}')
    ensures var s := IndexOf(text, "{");
            var e := LastIndexOf(text, '}');
            && 0 <= s <= e < |text|
            && JsonCandidate(text) == text[s..e + 1]
            && '{' !in text[..s] && '}' !in text[e + 1..]
    ensures var r := JsonCandidate(text); |r| >= 1 && r[0] == '{' && r[|r| - 1] == '}'
  {
    UnfencedCandidate(text);
    BraceSpan(text);
  }

  /** Without a non-empty fenced body, when the text lacks a `{` or a `}`, the
      candidate is the whole text (which then fails to parse unless it is JSON). */
  lemma CandidateWithoutBraces(text: string)
    requires !HasFencedBody(text)
    requires '{' !in text || '}' !in text
    ensures JsonCandidate(text) == text
  {
    FirstBrace(text);
    assert JsonCandidate(text) == BraceCandidate(text);
  }

  /** Without a non-empty fenced body, when the last `}` comes before the first
      `{`, `substring` swaps its bounds and the candidate is the text strictly
      between the two, which holds no brace of either kind. */
  lemma CandidateBetweenSwappedBraces(text: string)
    requires !HasFencedBody(text)
    requires '{' in text && '}' in text
    requires LastIndexOf(text, '}') < IndexOf(text, "{")
    ensures var s := IndexOf(text, "{");
            var e := LastIndexOf(text, '}');
            JsonCandidate(text) == text[e + 1..s]
    ensures '{' !in JsonCandidate(text) && '}' !in JsonCandidate(text)
  {
    FirstBrace(text);
    var s := IndexOf(text, "{");
    var e := LastIndexOf(text, '}');
    assert JsonCandidate(text) == BraceCandidate(text);
    forall k | e + 1 <= k < s ensures text[k] != '{' {
      assert text[..s][k] == text[k];
    }
    NotInSlice(text, '{', e + 1, s);
    NotInSlice(text, '}', e + 1, s);
  }

  /** A fence laid out at known positions: an opener at `o` with no backquote
      before it, whitespace, a backquote-free body `text[bs..be]` without
      whitespace at its ends, whitespace, and a closer at `cl`. */
  predicate FenceLaidOut(text: string, o: nat, bs: nat, be: nat, cl: nat) {
    && o + |FenceOpen| <= bs < be <= cl && cl + |FenceClose| <= |text|
    && (forall j :: 0 <= j < |FenceOpen| ==> text[o + j] == FenceOpen[j])
    && (forall j :: 0 <= j < |FenceClose| ==> text[cl + j] == FenceClose[j])
    && (forall k :: 0 <= k < o ==> text[k] != '`')
    && (forall k :: o + |FenceOpen| <= k < bs ==> IsSpace(text[k]))
    && (forall k :: bs <= k < be ==> text[k] != '`')
    && (forall k :: be <= k < cl ==> IsSpace(text[k]))
    && !IsSpace(text[bs]) && !IsSpace(text[be - 1])
  }

  /** Such a layout is the regular expression's match, so its body is the candidate. */
  lemma CandidateAtPositions(text: string, o: nat, bs: nat, be: nat, cl: nat)
    requires FenceLaidOut(text, o, bs, be, cl)
    ensures JsonCandidate(text) == text[bs..be]
  {
    assert text[o..o + |FenceOpen|] == FenceOpen;
    assert text[cl..cl + |FenceClose|] == FenceClose;
    forall k | 0 <= k < o ensures !OccursAt(text, FenceOpen, k) {
      OccursAtFirst(text, FenceOpen, k);
    }
    forall k | bs <= k < cl ensures !OccursAt(text, FenceClose, k) {
      OccursAtFirst(text, FenceClose, k);
    }
    var lead := text[o + |FenceOpen|..bs];
    forall i | 0 <= i < |lead| ensures IsSpace(lead[i]) {
      assert lead[i] == text[o + |FenceOpen| + i];
    }
    var trail := text[be..cl];
    forall i | 0 <= i < |trail| ensures IsSpace(trail[i]) {
      assert trail[i] == text[be + i];
    }
    var m := FenceMatch(o, bs, be, cl);
    assert IsFenceMatch(text, m);
    CandidateIsFencedBody(text, m);
  }

  /** The pieces of a fenced reply are laid out as the fence expects. */
  lemma FencedTextPieces(text: string, pre: string, ws1: string, body: string, ws2: string, post: string)
    requires text == pre + FenceOpen + ws1 + body + ws2 + FenceClose + post
    requires '`' !in pre && '`' !in body
    requires AllSpace(ws1) && AllSpace(ws2)
    requires body != [] && !IsSpace(body[0]) && !IsSpace(body[|body| - 1])
    ensures var bs := |pre| + |FenceOpen| + |ws1|;
            && FenceLaidOut(text, |pre|, bs, bs + |body|, bs + |body| + |ws2|)
            && text[bs..bs + |body|] == body
  {
    FencedHeadPieces(text, pre, ws1, body, ws2, post);
    FencedBodyPieces(text, pre, ws1, body, ws2, post);
    FencedCloserPieces(text, pre, ws1, body, ws2, post);
    var bs := |pre| + |FenceOpen| + |ws1|;
    assert text[bs..bs + |body|] == body;
  }

  /** The opener, the text before it and the whitespace after it. */
  lemma FencedHeadPieces(text: string, pre: string, ws1: string, body: string, ws2: string, post: string)
    requires text == pre + FenceOpen + ws1 + body + ws2 + FenceClose + post
    requires '`' !in pre && AllSpace(ws1) && body != []
    ensures var o := |pre|;
            var bs := o + |FenceOpen| + |ws1|;
            && bs < |text| && text[bs] == body[0]
            && (forall j :: 0 <= j < |FenceOpen| ==> text[o + j] == FenceOpen[j])
            && (forall k :: 0 <= k < o ==> text[k] != '`')
            && (forall k :: o + |FenceOpen| <= k < bs ==> IsSpace(text[k]))
  {
    var o := |pre|;
    var bs := o + |FenceOpen| + |ws1|;
    forall j | 0 <= j < |FenceOpen| ensures text[o + j] == FenceOpen[j] {
    }
    forall k | 0 <= k < o ensures text[k] != '`' {
      assert text[k] == pre[k];
    }
    forall k | o + |FenceOpen| <= k < bs ensures IsSpace(text[k]) {
      assert text[k] == ws1[k - o - |FenceOpen|];
    }
  }

  /** The body holds no backquote and keeps its last character. */
  lemma FencedBodyPieces(text: string, pre: string, ws1: string, body: string, ws2: string, post: string)
    requires text == pre + FenceOpen + ws1 + body + ws2 + FenceClose + post
    requires '`' !in body && body != []
    ensures var bs := |pre| + |FenceOpen| + |ws1|;
            var be := bs + |body|;
            && be <= |text| && text[be - 1] == body[|body| - 1]
            && (forall k :: bs <= k < be ==> text[k] != '`')
  {
    var bs := |pre| + |FenceOpen| + |ws1|;
    forall k | bs <= k < bs + |body| ensures text[k] != '`' {
      assert text[k] == body[k - bs];
    }
  }

  /** The whitespace after the body and the closer. */
  lemma FencedCloserPieces(text: string, pre: string, ws1: string, body: string, ws2: string, post: string)
    requires text == pre + FenceOpen + ws1 + body + ws2 + FenceClose + post
    requires AllSpace(ws2)
    ensures var be := |pre| + |FenceOpen| + |ws1| + |body|;
            var cl := be + |ws2|;
            && cl + |FenceClose| <= |text|
            && (forall j :: 0 <= j < |FenceClose| ==> text[cl + j] == FenceClose[j])
            && (forall k :: be <= k < cl ==> IsSpace(text[k]))
  {
    var be := |pre| + |FenceOpen| + |ws1| + |body|;
    var cl := be + |ws2|;
    forall j | 0 <= j < |FenceClose| ensures text[cl + j] == FenceClose[j] {
    }
    forall k | be <= k < cl ensures IsSpace(text[k]) {
      assert text[k] == ws2[k - be];
    }
  }

  /** A fenced reply yields exactly the fenced body, whatever prose surrounds
      it, provided the prose before it and the body hold no backquote. */
  lemma FencedRoundTrip(pre: string, ws1: string, body: string, ws2: string, post: string)
    requires '`' !in pre && '`' !in body
    requires AllSpace(ws1) && AllSpace(ws2)
    requires body != [] && !IsSpace(body[0]) && !IsSpace(body[|body| - 1])
    ensures JsonCandidate(pre + FenceOpen + ws1 + body + ws2 + FenceClose + post) == body
  {
    var text := pre + FenceOpen + ws1 + body + ws2 + FenceClose + post;
    var bs := |pre| + |FenceOpen| + |ws1|;
    FencedTextPieces(text, pre, ws1, body, ws2, post);
    CandidateAtPositions(text, |pre|, bs, bs + |body|, bs + |body| + |ws2|);
  }

  /** An unfenced reply yields exactly the braced object inside it, provided
      no `{` precedes the object and no `}` follows it. */
  lemma BracedRoundTrip(pre: string, obj: string, post: string)
    requires !HasFencePair(pre + obj + post)
    requires '{' !in pre && '}' !in post
    requires |obj| >= 2 && obj[0] == '{' && obj[|obj| - 1] == '}'
    ensures JsonCandidate(pre + obj + post) == obj
  {
    var text := pre + obj + post;
    var e := |pre| + |obj| - 1;
    forall k | 0 <= k < |pre| ensures text[k] != '{' {
      assert text[k] == pre[k];
    }
    forall k | e < k < |text| ensures text[k] != '}' {
      assert text[k] == post[k - e - 1];
    }
    assert text[|pre|..e + 1] == obj;
    BracedAt(text, |pre|, e);
  }

  /** Without a fence, a `{` with none before it and a later `}` with none
      after it delimit the candidate. */
  lemma BracedAt(text: string, s: nat, e: nat)
    requires !HasFencePair(text)
    requires s < e < |text| && text[s] == '{' && text[e] == '}'
    requires forall k :: 0 <= k < s ==> text[k] != '{'
    requires forall k :: e < k < |text| ==> text[k] != '}'
    ensures JsonCandidate(text) == text[s..e + 1]
  {
    FirstBrace(text);
    assert !HasFencedBody(text);
    UnfencedCandidate(text);
    BraceSliceInOrder(text, s, e);
  }
}
