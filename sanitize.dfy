/**
 * The clean-up applied to the generated test code before it is saved: trim,
 * drop one leading "```javascript" and one trailing "```", trim again.
 */
module Sanitize {
  import opened Strings

  /** `/^```javascript/`. */
  const OpeningFence := "```javascript"
  /** `/```$/`. */
  const ClosingFence := "```"

  /** `s.replace(/^```javascript/, "")`. */
  function DropOpeningFence(s: string): (r: string)
    ensures r == s || OpeningFence + r == s
    ensures OpeningFence + r == s <==> StartsWith(s, OpeningFence)
  {
    if StartsWith(s, OpeningFence) then s[|OpeningFence|..] else s
  }

  /** `s.replace(/```$/, "")`: `$` without the `m` flag is the end of the input only. */
  function DropClosingFence(s: string): (r: string)
    ensures r == s || r + ClosingFence == s
    ensures r + ClosingFence == s <==> EndsWith(s, ClosingFence)
  {
    if EndsWith(s, ClosingFence) then s[..|s| - |ClosingFence|] else s
  }

  /** What may precede the kept code: whitespace, or the opening fence and whitespace. */
  ghost predicate LeadingJunk(p: string) {
    AllWhitespace(p) || (StartsWith(p, OpeningFence) && AllWhitespace(p[|OpeningFence|..]))
  }

  /** What may follow the kept code: whitespace, or whitespace and the closing fence. */
  ghost predicate TrailingJunk(p: string) {
    AllWhitespace(p) || (EndsWith(p, ClosingFence) && AllWhitespace(p[..|p| - |ClosingFence|]))
  }

  /**
   * `r` is a slice of `t` between junk, which starts after the opening fence
   * when `t` starts with one, and ends before the closing fence when what is
   * left after the opening fence ends with one.
   */
  ghost predicate FenceCut(t: string, r: string) {
    exists i, j :: 0 <= i <= j <= |t| && r == t[i..j] && LeadingJunk(t[..i]) && TrailingJunk(t[j..])
      && (StartsWith(t, OpeningFence) ==> |OpeningFence| <= i)
      && (EndsWith(DropOpeningFence(t), ClosingFence) ==> j <= |t| - |ClosingFence|)
  }

  /**
   * `content.trim().replace(/^```javascript/, "").replace(/```$/, "").trim()`:
   * a slice of the trimmed reply between junk, which starts after the opening
   * fence when the reply starts with one, and ends before the closing fence
   * when what is left after the opening fence ends with one.
   */
  function StripFences(raw: string): (r: string)
    ensures IsTrimmed(r)
    ensures FenceCut(Trim(raw), r)
  {
    var t := Trim(raw);
    FenceCutOf(t);
    Trim(DropClosingFence(DropOpeningFence(t)))
  }

  /** Dropping the fences of `t` and trimming cuts `t` between junk, past the fences it has. */
  lemma FenceCutOf(t: string)
    ensures FenceCut(t, Trim(DropClosingFence(DropOpeningFence(t))))
  {
    DropOpeningFenceSuffix(t);
    var x := |t| - |DropOpeningFence(t)|;
    DropClosingFenceSlice(t, x);
    var y := x + |DropClosingFence(t[x..])|;
    var i, j := TrimmedSliceShape(t, x, y);
    assert StartsWith(t, OpeningFence) ==> x == |OpeningFence|;
    assert EndsWith(DropOpeningFence(t), ClosingFence) ==> y == |t| - |ClosingFence|;
  }

  /** Whitespace after nothing or after an opening fence at the start is leading junk. */
  lemma LeadingJunkOf(t: string, x: nat, i: nat)
    requires x <= i <= |t|
    requires x == 0 || (x == |OpeningFence| && StartsWith(t, OpeningFence))
    requires AllWhitespace(t[x..i])
    ensures LeadingJunk(t[..i])
  {
    if x == 0 {
      assert t[..i] == t[x..i];
    } else {
      assert t[..i][..x] == t[..x];
      assert t[..i][x..] == t[x..i];
    }
  }

  /** Whitespace before nothing or before a closing fence at the end is trailing junk. */
  lemma TrailingJunkOf(t: string, y: nat, j: nat)
    requires j <= y <= |t|
    requires y == |t| || (y == |t| - |ClosingFence| && EndsWith(t, ClosingFence))
    requires AllWhitespace(t[j..y])
    ensures TrailingJunk(t[j..])
  {
    var w := t[j..];
    if y == |t| {
      assert w == t[j..y];
    } else {
      assert w[|w| - |ClosingFence|..] == t[y..];
      assert w[..|w| - |ClosingFence|] == t[j..y];
    }
  }

  /** Dropping the opening fence leaves a suffix of the text. */
  lemma DropOpeningFenceSuffix(t: string)
    ensures var x := |t| - |DropOpeningFence(t)|;
      DropOpeningFence(t) == t[x..] && (x == 0 || (x == |OpeningFence| && StartsWith(t, OpeningFence)))
  {
  }

  /** Dropping the closing fence of a suffix leaves a slice of the text. */
  lemma DropClosingFenceSlice(t: string, x: nat)
    requires x <= |t|
    ensures var y := x + |DropClosingFence(t[x..])|;
      y <= |t| && DropClosingFence(t[x..]) == t[x..y]
      && (y == |t| || (y == |t| - |ClosingFence| && EndsWith(t, ClosingFence)))
  {
    var a := t[x..];
    if EndsWith(a, ClosingFence) {
      assert t[|t| - |ClosingFence|..] == a[|a| - |ClosingFence|..];
    }
  }

  /**
   * Trimming a slice of `t` that starts after nothing or after the opening
   * fence and ends before nothing or before the closing fence leaves a slice
   * between leading and trailing junk.
   */
  lemma TrimmedSliceShape(t: string, x: nat, y: nat) returns (i: nat, j: nat)
    requires x <= y <= |t|
    requires x == 0 || (x == |OpeningFence| && StartsWith(t, OpeningFence))
    requires y == |t| || (y == |t| - |ClosingFence| && EndsWith(t, ClosingFence))
    ensures x <= i <= j <= y && Trim(t[x..y]) == t[i..j] && LeadingJunk(t[..i]) && TrailingJunk(t[j..])
  {
    var b := t[x..y];
    var p, q := TrimBounds(b);
    i, j := JunkAroundSlice(t, x, y, p, q, Trim(b));
  }

  /** A slice `r` of `t[x..y]` with only whitespace beside it inside `t[x..y]` lies between junk in `t`. */
  lemma JunkAroundSlice(t: string, x: nat, y: nat, p: nat, q: nat, r: string) returns (i: nat, j: nat)
    requires x <= y <= |t| && p <= q <= y - x
    requires x == 0 || (x == |OpeningFence| && StartsWith(t, OpeningFence))
    requires y == |t| || (y == |t| - |ClosingFence| && EndsWith(t, ClosingFence))
    requires r == t[x..y][p..q] && AllWhitespace(t[x..y][..p]) && AllWhitespace(t[x..y][q..])
    ensures x <= i <= j <= y && r == t[i..j] && LeadingJunk(t[..i]) && TrailingJunk(t[j..])
  {
    i, j := x + p, x + q;
    SliceOfSlice(t, x, y, p, q);
    WhitespaceBeside(t, x, y, p, q);
    LeadingJunkOf(t, x, i);
    TrailingJunkOf(t, y, j);
  }

  /** Whitespace beside a slice of `t[x..y]` is whitespace of `t` beside the same slice. */
  lemma WhitespaceBeside(t: string, x: nat, y: nat, p: nat, q: nat)
    requires x <= y <= |t| && p <= q <= y - x
    requires AllWhitespace(t[x..y][..p]) && AllWhitespace(t[x..y][q..])
    ensures AllWhitespace(t[x..x + p]) && AllWhitespace(t[x + q..y])
  {
    var b, front, back := t[x..y], t[x..x + p], t[x + q..y];
    forall k | 0 <= k < |front| ensures IsWhitespace(front[k]) {
      assert front[k] == b[..p][k];
    }
    forall k | 0 <= k < |back| ensures IsWhitespace(back[k]) {
      assert back[k] == b[q..][k];
    }
  }

  /** The fenced form of `code`. */
  function Fenced(code: string): (raw: string)
    ensures IsTrimmed(raw) && StartsWith(raw, OpeningFence)
    ensures raw[|OpeningFence|..] == "\n" + code + "\n" + ClosingFence
  {
    var raw := OpeningFence + ("\n" + code + "\n" + ClosingFence);
    assert raw[..|OpeningFence|] == OpeningFence;
    raw
  }

  /** A closing fence appended to `p` is what gets dropped. */
  lemma DropClosingFenceOf(p: string)
    ensures DropClosingFence(p + ClosingFence) == p
  {
    var s := p + ClosingFence;
    assert s[|s| - |ClosingFence|..] == ClosingFence;
    assert s[..|s| - |ClosingFence|] == p;
  }

  /** On a reply that needs no trimming, only the fences are dropped before the final trim. */
  lemma StripFencesOfTrimmed(raw: string)
    requires IsTrimmed(raw)
    ensures StripFences(raw) == Trim(DropClosingFence(DropOpeningFence(raw)))
  {
    TrimOfTrimmed(raw);
  }

  /** Code wrapped in a javascript fence on lines of its own comes back exactly. */
  lemma StripFencesOfFencedCode(code: string)
    requires IsTrimmed(code)
    ensures StripFences(Fenced(code)) == code
  {
    var raw, mid := Fenced(code), "\n" + code + "\n";
    StripFencesOfTrimmed(raw);
    assert DropOpeningFence(raw) == mid + ClosingFence;
    DropClosingFenceOf(mid);
    TrimOf("\n", code, "\n");
  }

  /** A reply without either fence is only trimmed. */
  lemma StripFencesWithoutFences(raw: string)
    requires !StartsWith(Trim(raw), OpeningFence) && !EndsWith(Trim(raw), ClosingFence)
    ensures StripFences(raw) == Trim(raw)
  {
    TrimIdempotent(raw);
  }
}
