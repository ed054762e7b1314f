/** The clean-up `translate_text_structured` applies to the completion text
    before handing it to the JSON decoder: trim, drop one leading "```json"
    marker, drop one trailing "```" fence, trim again. */
module Cleaning {
  import opened PyStr

  /** The opening marker of a fenced JSON block. */
  const JsonFence: string := "```json"
  /** A bare Markdown code fence. */
  const Fence: string := "```"

  lemma StripIsSlice(s: string)
    ensures IsSlice(Strip(s), s)
  {
  }

  /** Lines 88-89 of the source: a leading "```json" goes, once. */
  function DropMarker(t: string): (u: string)
    ensures IsSlice(u, t)
    ensures StartsWith(t, JsonFence) ==> u == t[7..]
    ensures !StartsWith(t, JsonFence) ==> u == t
  {
    if StartsWith(t, JsonFence) then
      ReplaceFirstAtStart(t, JsonFence, "");
      assert t[7..] == t[7..|t|];
      ReplaceFirst(t, JsonFence, "")
    else
      assert t == t[0..|t|];
      t
  }

  /** Lines 90-91 of the source: a trailing "```" goes, once. */
  function DropFence(u: string): (v: string)
    ensures IsSlice(v, u)
    ensures EndsWith(u, Fence) ==> v + Fence == u
    ensures !EndsWith(u, Fence) ==> v == u
  {
    if EndsWith(u, Fence) then
      assert u[..|u| - 3] == u[0..|u| - 3];
      u[..|u| - 3]
    else
      assert u == u[0..|u|];
      u
  }

  /** The text given to the JSON decoder for the completion `content`. It is a
      piece of `content`, so never longer, and has no whitespace at either end. */
  function CleanCompletion(content: string): (r: string)
    ensures IsSlice(r, content) && |r| <= |content|
    ensures Trimmed(r)
  {
    var trimmed := Strip(content);
    var unprefixed := DropMarker(trimmed);
    var unfenced := DropFence(unprefixed);
    StripIsSlice(content);
    StripIsSlice(unfenced);
    SliceOfSlice(unprefixed, trimmed, content);
    SliceOfSlice(unfenced, unprefixed, content);
    SliceOfSlice(Strip(unfenced), unfenced, content);
    Strip(unfenced)
  }

  /** A reply that, once trimmed, carries neither marker is only trimmed. */
  lemma CleanUnfenced(content: string)
    requires !StartsWith(Strip(content), JsonFence) && !EndsWith(Strip(content), Fence)
    ensures CleanCompletion(content) == Strip(content)
  {
    StripIdempotent(content);
  }

  /** An already trimmed reply that opens with the marker and closes with a
      fence gives the decoder what lies strictly between the two, trimmed. */
  lemma CleanMarked(x: string)
    requires Trimmed(x) && StartsWith(x, JsonFence) && EndsWith(x[7..], Fence)
    ensures CleanCompletion(x) == Strip(x[7..|x| - 3])
  {
    calc {
      CleanCompletion(x);
      Strip(DropFence(DropMarker(Strip(x))));
    == { StripOfTrimmed(x); }
      Strip(DropFence(DropMarker(x)));
      Strip(DropFence(x[7..]));
    == { assert x[7..][..|x| - 10] == x[7..|x| - 3]; }
      Strip(x[7..|x| - 3]);
    }
  }

  /** An already trimmed reply that opens with the marker but does not
      close with a fence loses only the marker. */
  lemma CleanOpenedOnly(x: string)
    requires Trimmed(x) && StartsWith(x, JsonFence) && !EndsWith(x[7..], Fence)
    ensures CleanCompletion(x) == Strip(x[7..])
  {
    calc {
      CleanCompletion(x);
      Strip(DropFence(DropMarker(Strip(x))));
    == { StripOfTrimmed(x); }
      Strip(DropFence(DropMarker(x)));
      Strip(DropFence(x[7..]));
      Strip(x[7..]);
    }
  }

  /** An already trimmed reply that closes with a fence but does not open with
      the marker loses only the closing fence. */
  lemma CleanClosedOnly(x: string)
    requires Trimmed(x) && !StartsWith(x, JsonFence) && EndsWith(x, Fence)
    ensures CleanCompletion(x) == Strip(x[..|x| - 3])
  {
    calc {
      CleanCompletion(x);
      Strip(DropFence(DropMarker(Strip(x))));
    == { StripOfTrimmed(x); }
      Strip(DropFence(DropMarker(x)));
      Strip(DropFence(x));
      Strip(x[..|x| - 3]);
    }
  }

  /** A "```json" … "```" block cleans to its trimmed inside, whatever the
      inside is: exactly one leading marker and one trailing fence go. */
  lemma CleanFenced(body: string)
    ensures CleanCompletion(JsonFence + body + Fence) == Strip(body)
  {
    var x := JsonFence + body + Fence;
    assert x[0] == '`' && x[|x| - 1] == '`';
    assert x[..7] == JsonFence;
    assert x[7..] == body + Fence;
    assert x[7..|x| - 3] == body;
    CleanMarked(x);
  }

  /** Fenced and unfenced replies give the decoder the same text, so long as
      the bare reply does not itself look fenced. */
  lemma FencedMatchesUnfenced(body: string)
    requires !StartsWith(Strip(body), JsonFence) && !EndsWith(Strip(body), Fence)
    ensures CleanCompletion(JsonFence + body + Fence) == CleanCompletion(body)
  {
    CleanFenced(body);
    CleanUnfenced(body);
  }

  /** A bare "```" followed by anything other than "json" is no marker. */
  lemma NoMarkerAfterBareFence(body: string)
    requires !StartsWith(body, "json")
    ensures !StartsWith(Fence + body + Fence, JsonFence)
  {
    var x := Fence + body + Fence;
    if |body| >= 4 {
      assert x[..7] == Fence + body[..4];
      assert (Fence + body[..4])[3..] == body[..4];
      assert JsonFence[3..] == "json";
    } else if |x| >= 7 {
      assert x[..7][3 + |body|] == '`';
    }
  }

  /** A reply opened by a bare "```" keeps that opening fence; only the
      trailing fence is dropped. */
  lemma BareFenceKept(body: string)
    requires !StartsWith(body, "json")
    ensures CleanCompletion(Fence + body + Fence) == Fence + RStrip(body)
    ensures StartsWith(CleanCompletion(Fence + body + Fence), Fence)
  {
    var x := Fence + body + Fence;
    assert x[0] == '`' && x[|x| - 1] == '`';
    NoMarkerAfterBareFence(body);
    assert x[..|x| - 3] == Fence + body;
    CleanClosedOnly(x);
    StripKeepsPrefix(Fence, body);
  }

  /** Only one "```json" marker is removed: a doubled marker leaves the
      second one in place. */
  lemma OnlyFirstMarkerRemoved(body: string)
    ensures CleanCompletion(JsonFence + JsonFence + body + Fence) == JsonFence + RStrip(body)
  {
    var inner := JsonFence + body;
    calc {
      CleanCompletion(JsonFence + JsonFence + body + Fence);
    == { assert JsonFence + JsonFence + body + Fence == JsonFence + inner + Fence; }
      CleanCompletion(JsonFence + inner + Fence);
    == { CleanFenced(inner); }
      Strip(inner);
    == { StripKeepsPrefix(JsonFence, body); }
      JsonFence + RStrip(body);
    }
  }

  /** Since the marker ends in "json", testing for the trailing fence after
      dropping the marker decides the same as testing before. */
  lemma FenceTestAfterRemoval(t: string)
    requires StartsWith(t, JsonFence)
    ensures EndsWith(t[7..], Fence) <==> EndsWith(t, Fence)
  {
    var u := t[7..];
    assert t == JsonFence + u;
    if |u| >= 3 {
      assert t[|t| - 3..] == u[|u| - 3..];
    } else {
      assert t[|t| - 3..][6 - (|t| - 3)] == t[6] == 'n';
    }
  }

  /** Cleaning is not idempotent: a reply with a doubled marker still carries
      one after the first clean-up, and a second clean-up removes it. */
  lemma DoubledMarkerNeedsTwoPasses(body: string)
    requires Trimmed(body) && !EndsWith(body, Fence)
    ensures CleanCompletion(JsonFence + JsonFence + body + Fence) == JsonFence + body
    ensures CleanCompletion(JsonFence + body) == body
    ensures CleanCompletion(CleanCompletion(JsonFence + JsonFence + body + Fence))
         != CleanCompletion(JsonFence + JsonFence + body + Fence)
  {
    assert RStrip(body) == body by {
      assert TrailingSpaces(body) == 0;
    }
    OnlyFirstMarkerRemoved(body);
    MarkerOnly(body);
  }

  /** A trimmed body behind a lone marker comes out as the body. */
  lemma MarkerOnly(body: string)
    requires Trimmed(body) && !EndsWith(body, Fence)
    ensures CleanCompletion(JsonFence + body) == body
  {
    var once := JsonFence + body;
    assert once[0] == '`' && once[|once| - 1] == (if body == [] then 'n' else body[|body| - 1]);
    assert once[..7] == JsonFence && once[7..] == body;
    CleanOpenedOnly(once);
    StripOfTrimmed(body);
  }
}
