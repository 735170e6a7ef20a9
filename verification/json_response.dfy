/**
 * `cleanJsonResponse` (client/server/services/geminiService.js): turns the language model's
 * reply into bare JSON text by removing the first "```json" opener (tag in any case) with the
 * whitespace after it, then every remaining "```", then the whitespace at both ends.
 */
module JsonResponse {
  import opened Strings
  import opened Filtering

  const Fence: string := "```"

  /**
   * The pattern "```json" with the `i` flag matches `s` at position `i`: three backticks, then
   * the tag in any mix of cases.
   */
  predicate JsonFenceAt(s: string, i: int) {
    && 0 <= i && i + 7 <= |s|
    && s[i] == '`' && s[i + 1] == '`' && s[i + 2] == '`'
    && LowerChar(s[i + 3]) == 'j' && LowerChar(s[i + 4]) == 's'
    && LowerChar(s[i + 5]) == 'o' && LowerChar(s[i + 6]) == 'n'
  }

  /** A four-letter tag that reads "json" in some mix of cases. */
  predicate IsJsonTag(tag: string) {
    && |tag| == 4
    && LowerChar(tag[0]) == 'j' && LowerChar(tag[1]) == 's'
    && LowerChar(tag[2]) == 'o' && LowerChar(tag[3]) == 'n'
  }

  // The first replacement: the pattern "```json" followed by `\s*`, with the `i` flag and
  // without the `g` flag, is replaced by the empty string. Only the leftmost match goes, and
  // the greedy `\s*` takes the whole whitespace run after the tag.
  //
  // The text either comes back unchanged or loses at least the seven characters of an opener.
  function DropJsonFence(s: string): (r: string)
    ensures r == s || |r| <= |s| - 7
    decreases |s|
  {
    if JsonFenceAt(s, 0) then TrimStart(s[7..])
    else if s == [] then []
    else [s[0]] + DropJsonFence(s[1..])
  }

  /** The global replacement of "```" by the empty string: removes the non-overlapping fences found scanning left to right. */
  function RemoveFences(s: string): (r: string)
    ensures |r| <= |s| && (|s| - |r|) % 3 == 0
    decreases |s|
  {
    if |s| >= 3 && s[..3] == Fence then RemoveFences(s[3..])
    else if s == [] then []
    else [s[0]] + RemoveFences(s[1..])
  }

  /** `cleanJsonResponse(text)`. */
  function CleanJsonResponse(text: string): (r: string)
    ensures !Contains(r, Fence)
    ensures Trimmed(r)
  {
    var noFences := RemoveFences(DropJsonFence(text));
    RemoveFencesLeavesNoFence(DropJsonFence(text));
    TrimKeepsNoFence(noFences);
    Trim(noFences)
  }

  predicate NotTick(c: char) {
    c != '`'
  }

  /** The text with every backtick deleted. */
  function WithoutTicks(s: string): string {
    Filter(s, NotTick)
  }

  predicate TickFree(s: string) {
    forall i :: 0 <= i < |s| ==> s[i] != '`'
  }

  // ---------------------------------------------------------------------------
  // The first replacement
  // ---------------------------------------------------------------------------

  lemma JsonFenceAtTail(s: string, j: int)
    requires s != [] && 0 <= j
    ensures JsonFenceAt(s[1..], j) <==> JsonFenceAt(s, j + 1)
  {
  }

  /** Without an opener anywhere, the first replacement changes nothing. */
  lemma {:induction false} DropJsonFenceNoMatch(s: string)
    requires forall i :: 0 <= i < |s| ==> !JsonFenceAt(s, i)
    ensures DropJsonFence(s) == s
    decreases |s|
  {
    if s != [] {
      forall j | 0 <= j < |s[1..]|
        ensures !JsonFenceAt(s[1..], j)
      {
        JsonFenceAtTail(s, j);
      }
      DropJsonFenceNoMatch(s[1..]);
    }
  }

  /** The leftmost opener, and the whitespace after it, is what the first replacement removes. */
  lemma {:induction false} DropJsonFenceLeftmost(s: string, i: int)
    requires JsonFenceAt(s, i)
    requires forall j :: 0 <= j < i ==> !JsonFenceAt(s, j)
    ensures DropJsonFence(s) == s[..i] + TrimStart(s[i + 7..])
    decreases i
  {
    if i > 0 {
      JsonFenceAtTail(s, i - 1);
      forall j | 0 <= j < i - 1
        ensures !JsonFenceAt(s[1..], j)
      {
        JsonFenceAtTail(s, j);
      }
      DropJsonFenceLeftmost(s[1..], i - 1);
      ConsSlices(s, i, 7);
    }
  }

  /** Rebuilds a split of `s` at `i` from the split of its tail at `i - 1`. */
  lemma ConsSlices(s: string, i: int, k: nat)
    requires 0 < i && i + k <= |s|
    ensures [s[0]] + s[1..][..i - 1] == s[..i]
    ensures s[1..][i - 1 + k..] == s[i + k..]
  {
  }

  /**
   * Only the first opener is consumed: with a backtick-free prefix, whatever follows the first
   * opener and its whitespace is handed on unchanged, further "```JSON" openers included.
   */
  lemma OnlyFirstJsonFence(prefix: string, tag: string, ws: string, rest: string)
    requires TickFree(prefix)
    requires IsJsonTag(tag)
    requires AllSpace(ws)
    ensures DropJsonFence(prefix + Fence + tag + ws + rest) == prefix + TrimStart(rest)
  {
    var s := prefix + Fence + tag + ws + rest;
    var i := |prefix|;
    assert forall k :: 0 <= k < 4 ==> s[i + 3 + k] == tag[k];
    assert JsonFenceAt(s, i);
    forall j | 0 <= j < i
      ensures !JsonFenceAt(s, j)
    {
      assert s[j] == prefix[j];
    }
    DropJsonFenceLeftmost(s, i);
    assert s[..i] == prefix && s[i + 7..] == ws + rest;
    TrimStartPrefix(ws, rest);
  }

  // ---------------------------------------------------------------------------
  // The global replacement
  // ---------------------------------------------------------------------------

  lemma RemoveFencesHead(s: string)
    requires s != [] && s[0] != '`'
    ensures RemoveFences(s) != [] && RemoveFences(s)[0] == s[0]
  {
  }

  /**
   * No fence survives the global replacement: each run of backticks loses its length
   * rounded down to a multiple of three, so at most two remain of it.
   */
  lemma {:induction false} RemoveFencesLeavesNoFence(s: string)
    ensures !Contains(RemoveFences(s), Fence)
    decreases |s|
  {
    if |s| >= 3 && s[..3] == Fence {
      RemoveFencesLeavesNoFence(s[3..]);
    } else if s != [] {
      var t := RemoveFences(s[1..]);
      var r := [s[0]] + t;
      assert RemoveFences(s) == r;
      RemoveFencesLeavesNoFence(s[1..]);
      assert r[1..] == t;
      if s[0] == '`' && |s| >= 2 {
        if s[1] != '`' {
          RemoveFencesHead(s[1..]);
        } else if |s| >= 3 {
          assert s[1..][1] == s[2] != '`';
          RemoveFencesHead(s[2..]);
          assert t == [s[1]] + RemoveFences(s[2..]);
        } else {
          assert t == [s[1]];
        }
      }
      assert !(3 <= |r| && r[..3] == Fence);
    }
  }

  /** The global replacement deletes backticks and nothing else. */
  lemma {:induction false} RemoveFencesKeepsText(s: string)
    ensures WithoutTicks(RemoveFences(s)) == WithoutTicks(s)
    decreases |s|
  {
    if |s| >= 3 && s[..3] == Fence {
      RemoveFencesKeepsText(s[3..]);
      assert s == Fence + s[3..];
      FilterConcat(Fence, s[3..], NotTick);
      assert Filter(Fence, NotTick) == [];
    } else if s != [] {
      RemoveFencesKeepsText(s[1..]);
      FilterConcat([s[0]], RemoveFences(s[1..]), NotTick);
    }
  }

  /** A string without fences passes through the global replacement unchanged. */
  lemma {:induction false} RemoveFencesIdentity(s: string)
    requires !Contains(s, Fence)
    ensures RemoveFences(s) == s
    decreases |s|
  {
    if s != [] {
      RemoveFencesIdentity(s[1..]);
    }
  }

  /** A backtick-free prefix is copied through the global replacement. */
  lemma {:induction false} RemoveFencesTickFreePrefix(x: string, y: string)
    requires TickFree(x)
    ensures RemoveFences(x + y) == x + RemoveFences(y)
    decreases |x|
  {
    if x != [] {
      assert (x + y)[0] == x[0];
      assert (x + y)[1..] == x[1..] + y;
      RemoveFencesTickFreePrefix(x[1..], y);
    } else {
      assert x + y == y;
    }
  }

  lemma TrimKeepsNoFence(s: string)
    requires !Contains(s, Fence)
    ensures !Contains(Trim(s), Fence)
  {
    var r := Trim(s);
    var a := |s| - |TrimStart(s)|;
    TrimSpec(s);
    ContainsIffOccurs(r, Fence);
    ContainsIffOccurs(s, Fence);
    if Occurs(r, Fence) {
      OccursInSlice(s, a, a + |r|, Fence);
    }
  }

  // ---------------------------------------------------------------------------
  // Properties of the whole cleaning step
  // ---------------------------------------------------------------------------

  /** Cleaning already-clean text returns it unchanged. */
  lemma CleanIdempotent(text: string)
    ensures CleanJsonResponse(CleanJsonResponse(text)) == CleanJsonResponse(text)
  {
    var c := CleanJsonResponse(text);
    forall i | 0 <= i < |c|
      ensures !JsonFenceAt(c, i)
    {
      if JsonFenceAt(c, i) {
        assert c[i..i + 3] == Fence;
        assert OccursAt(c, Fence, i);
        ContainsIffOccurs(c, Fence);
        assert false;
      }
    }
    DropJsonFenceNoMatch(c);
    RemoveFencesIdentity(c);
  }

  /** A reply wrapped as "```json", whitespace, body, "```" yields the trimmed body. */
  lemma CleanFencedBody(tag: string, ws: string, body: string)
    requires IsJsonTag(tag)
    requires AllSpace(ws)
    requires TickFree(body)
    ensures CleanJsonResponse(Fence + tag + ws + body + Fence) == Trim(body)
  {
    var s := Fence + tag + ws + body + Fence;
    assert forall k :: 0 <= k < 4 ==> s[3 + k] == tag[k];
    assert JsonFenceAt(s, 0);
    assert s[7..] == ws + (body + Fence);
    TrimStartPrefix(ws, body + Fence);
    TrimStartAppend(body, Fence);
    var b := TrimStart(body);
    TrimStartSpec(body);
    assert TickFree(b) by {
      forall i | 0 <= i < |b| ensures b[i] != '`' {
        assert b[i] == body[|body| - |b| + i];
      }
    }
    assert DropJsonFence(s) == b + Fence;
    RemoveFencesTickFreePrefix(b, Fence);
    assert RemoveFences(Fence) == [];
    assert b + [] == b;
    TrimStartIdempotent(body);
  }

  /** Text without any backtick is only trimmed. */
  lemma CleanTickFree(text: string)
    requires TickFree(text)
    ensures CleanJsonResponse(text) == Trim(text)
  {
    forall i | 0 <= i < |text|
      ensures !JsonFenceAt(text, i)
    {
    }
    DropJsonFenceNoMatch(text);
    RemoveFencesTickFreePrefix(text, []);
    assert text + [] == text;
  }
}
