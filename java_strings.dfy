/** The three `java.lang.String` operations the interceptor relies on:
    `startsWith`, `replace(CharSequence, CharSequence)` and
    `toLowerCase(Locale.ROOT)` (the latter over ASCII letters only). */
module JavaStrings {

  /** `t` occurs in `s` at position `i`. */
  predicate OccursAt(s: string, t: string, i: int)
  {
    0 <= i && i + |t| <= |s| && s[i..i + |t|] == t
  }

  /** `s` is `prefix` followed by `rest`. */
  predicate Splits(s: string, prefix: string, rest: string) {
    s == prefix + rest
  }

  /** `s.startsWith(prefix)`: `s` is `prefix` followed by some rest (then
      the rest is what follows the prefix), that is, the prefix occurs at
      position 0. */
  function StartsWith(s: string, prefix: string): (b: bool)
    ensures b ==> |prefix| <= |s| && Splits(s, prefix, s[|prefix|..])
    ensures forall rest :: Splits(s, prefix, rest) ==> b
    ensures b <==> OccursAt(s, prefix, 0)
  {
    if |prefix| <= |s| && s[..|prefix|] == prefix then
      assert Splits(s, prefix, s[|prefix|..]);
      true
    else
      assert forall rest :: Splits(s, prefix, rest) ==> s[..|prefix|] == prefix;
      false
  }

  /** Occurrences in `s[1..]` are those in `s` shifted left by one. */
  lemma OccursShift(s: string, t: string, j: int)
    requires s != [] && 0 <= j
    ensures OccursAt(s[1..], t, j) == OccursAt(s, t, j + 1)
  {
    if 0 <= j && j + |t| <= |s| - 1 {
      assert s[1..][j..j + |t|] == s[j + 1..j + 1 + |t|];
    }
  }

  /** `t` occurs somewhere in `s`. */
  ghost predicate Occurs(s: string, t: string)
  {
    exists i :: OccursAt(s, t, i)
  }

  /** `s.replace("", r)`: Java puts `r` before every character and at the end. */
  function InsertEverywhere(s: string, r: string): (out: string)
    ensures |out| == |s| + (|s| + 1) * |r|
  {
    if s == [] then r else r + [s[0]] + InsertEverywhere(s[1..], r)
  }

  /** In `s.replace("", r)`, character `i` of `s` sits at `i * (|r| + 1) + |r|`,
      right after its own copy of `r`. */
  lemma {:induction false} InsertAt(s: string, r: string, i: nat)
    requires i < |s|
    ensures var k, out := |r| + 1, InsertEverywhere(s, r);
      i * k + |r| < |out| && out[i * k..i * k + |r|] == r && out[i * k + |r|] == s[i]
  {
    var k := |r| + 1;
    var tail := InsertEverywhere(s[1..], r);
    assert InsertEverywhere(s, r) == (r + [s[0]]) + tail;
    if i == 0 {
      assert i * k == 0;
    } else {
      InsertAt(s[1..], r, i - 1);
      var p := (i - 1) * k;
      assert i * k == k + p;
      Shifted(r + [s[0]], tail, p, |r|);
    }
  }

  /** Positions in the second part of a concatenation, shifted by the first. */
  lemma Shifted(front: string, back: string, p: nat, n: nat)
    requires p + n < |back|
    ensures (front + back)[|front| + p..|front| + p + n] == back[p..p + n]
    ensures (front + back)[|front| + p + n] == back[p + n]
  {
  }

  /** `s.replace("", r)` ends with `r`. */
  lemma {:induction false} InsertEnd(s: string, r: string)
    ensures var out := InsertEverywhere(s, r); out[|out| - |r|..] == r
  {
    var out := InsertEverywhere(s, r);
    if s != [] {
      var tail := InsertEverywhere(s[1..], r);
      InsertEnd(s[1..], r);
      assert out == r + [s[0]] + tail;
      assert out[|out| - |r|..] == tail[|tail| - |r|..];
    }
  }

  /** `s.replace(target, replacement)`: every occurrence of `target`, scanning
      left to right without overlap, is replaced by `replacement`. The scan
      reads the original `s`, so text that a replacement introduces is never
      rescanned. */
  function Replace(s: string, target: string, replacement: string): string
  {
    if target == [] then InsertEverywhere(s, replacement) else ReplaceScan(s, target, replacement)
  }

  /** The scan of `replace` for a non-empty target. */
  function ReplaceScan(s: string, target: string, replacement: string): string
    requires target != []
    decreases |s|
  {
    if StartsWith(s, target) then replacement + ReplaceScan(s[|target|..], target, replacement)
    else if s == [] then []
    else [s[0]] + ReplaceScan(s[1..], target, replacement)
  }

  /** Replacing a text that does not occur changes nothing. */
  lemma {:induction false} ReplaceAbsent(s: string, target: string, replacement: string)
    requires target != [] && !Occurs(s, target)
    ensures Replace(s, target, replacement) == s
    decreases |s|
  {
    assert !OccursAt(s, target, 0);
    if s != [] {
      forall i | 0 <= i ensures OccursAt(s[1..], target, i) == OccursAt(s, target, i + 1) {
        OccursShift(s, target, i);
      }
      ReplaceAbsent(s[1..], target, replacement);
    }
  }

  /** Replacing where the target occurs: everything before its first
      occurrence is kept, the occurrence becomes the replacement, and the
      scan resumes right after it. With `ReplaceAbsent`, this says that
      every non-overlapping occurrence, left to right, is replaced. */
  lemma ReplaceFirst(s: string, target: string, replacement: string, i: nat)
    requires target != [] && OccursAt(s, target, i)
    requires forall j :: 0 <= j < i ==> !OccursAt(s, target, j)
    ensures Replace(s, target, replacement) == s[..i] + replacement + Replace(s[i + |target|..], target, replacement)
  {
    ReplaceKeeps(s, target, replacement, i);
    ReplaceAt(s, target, replacement, i);
    assert s[..i] + (replacement + ReplaceScan(s[i + |target|..], target, replacement))
      == s[..i] + replacement + ReplaceScan(s[i + |target|..], target, replacement);
  }

  /** While the target does not occur, the scan copies the text. */
  lemma {:induction false} ReplaceKeeps(s: string, target: string, replacement: string, k: nat)
    requires target != [] && k <= |s|
    requires forall j :: 0 <= j < k ==> !OccursAt(s, target, j)
    ensures ReplaceScan(s, target, replacement) == s[..k] + ReplaceScan(s[k..], target, replacement)
    decreases k
  {
    if k == 0 {
      assert s[..0] == [] && s[0..] == s;
    } else {
      ReplaceKeeps(s, target, replacement, k - 1);
      KeepOneMore(s, target, replacement, k - 1);
    }
  }

  /** One more copied character. */
  lemma KeepOneMore(s: string, target: string, replacement: string, k: nat)
    requires target != [] && k < |s| && !OccursAt(s, target, k)
    requires ReplaceScan(s, target, replacement) == s[..k] + ReplaceScan(s[k..], target, replacement)
    ensures ReplaceScan(s, target, replacement) == s[..k + 1] + ReplaceScan(s[k + 1..], target, replacement)
  {
    ReplaceSkipAt(s, target, replacement, k);
    TakeOneMore(s, k);
    Regroup(ReplaceScan(s, target, replacement), s[..k], ReplaceScan(s[k..], target, replacement),
            [s[k]], s[..k + 1], ReplaceScan(s[k + 1..], target, replacement));
  }

  /** The scan from a position where the target does not occur keeps that
      character and moves on. */
  lemma ReplaceSkipAt(s: string, target: string, replacement: string, k: nat)
    requires target != [] && k < |s| && !OccursAt(s, target, k)
    ensures ReplaceScan(s[k..], target, replacement) == [s[k]] + ReplaceScan(s[k + 1..], target, replacement)
  {
    var u := s[k..];
    assert u[1..] == s[k + 1..];
    if |target| <= |u| {
      assert u[..|target|] == s[k..k + |target|];
    }
    assert !StartsWith(u, target);
  }

  /** The scan from a position where the target occurs emits the replacement
      and resumes after the occurrence. */
  lemma ReplaceAt(s: string, target: string, replacement: string, k: nat)
    requires target != [] && OccursAt(s, target, k)
    ensures ReplaceScan(s[k..], target, replacement) == replacement + ReplaceScan(s[k + |target|..], target, replacement)
  {
    var u := s[k..];
    assert u[..|target|] == s[k..k + |target|];
    assert StartsWith(u, target);
    assert u[|target|..] == s[k + |target|..];
  }

  /** A prefix grows by the character that follows it. */
  lemma TakeOneMore(s: string, k: nat)
    requires k < |s|
    ensures s[..k] + [s[k]] == s[..k + 1]
  {
  }

  /** Concatenation regrouped around a known prefix. */
  lemma Regroup(whole: string, before: string, middle: string, c: string, prefix: string, rest: string)
    requires whole == before + middle && middle == c + rest && before + c == prefix
    ensures whole == prefix + rest
  {
  }

  /** Replacing a text by itself changes nothing, the empty target included. */
  lemma {:induction false} ReplaceBySelf(s: string, target: string)
    ensures Replace(s, target, target) == s
    decreases |s|
  {
    if target == [] {
      if s != [] {
        ReplaceBySelf(s[1..], target);
        assert [s[0]] + s[1..] == s;
      }
    } else if StartsWith(s, target) {
      ReplaceBySelf(s[|target|..], target);
      assert s[..|target|] + s[|target|..] == s;
    } else if s != [] {
      ReplaceBySelf(s[1..], target);
      assert [s[0]] + s[1..] == s;
    }
  }

  /** `Character.toLowerCase` restricted to ASCII under `Locale.ROOT`. */
  function LowerChar(c: char): char
  {
    if 'A' <= c <= 'Z' then (c as int + 32) as char else c
  }

  predicate IsUpper(c: char)
  {
    'A' <= c <= 'Z'
  }

  /** `s.toLowerCase(Locale.ROOT)`, over ASCII letters: each character is
      mapped on its own, and no upper-case ASCII letter is left behind. */
  function ToLowerRoot(s: string): (r: string)
    ensures |r| == |s|
    ensures forall i :: 0 <= i < |s| ==> r[i] == LowerChar(s[i]) && !IsUpper(r[i])
  {
    if s == [] then [] else [LowerChar(s[0])] + ToLowerRoot(s[1..])
  }

  /** Lower-casing twice is lower-casing once. */
  lemma {:induction false} ToLowerRootIdempotent(s: string)
    ensures ToLowerRoot(ToLowerRoot(s)) == ToLowerRoot(s)
  {
    if s != [] {
      ToLowerRootIdempotent(s[1..]);
    }
  }
}
