/** Packed bitmaps: n bits in words of w bits, as the set of the positions that are set. The kernel
    keeps its used pages in 64-bit words and its ASIDs in bytes. */
module Bitmaps {
  import opened Bits

  predicate Width(w: nat) { w == 8 || w == 64 }

  ghost predicate WordsOk(words: seq<nat>, w: nat, n: nat) {
    Width(w) && |words| == (n + w - 1) / w && forall k :: 0 <= k < |words| ==> words[k] < Pow2(w)
  }

  /** Position idx lies in one of the words. */
  lemma InWords(w: nat, n: nat, idx: nat)
    requires Width(w) && idx < n
    ensures idx / w < (n + w - 1) / w && idx % w < w
  {
    if w == 8 { } else { }
  }

  lemma SamePosition(w: nat, i: nat, j: nat)
    requires Width(w) && i / w == j / w && i % w == j % w
    ensures i == j
  {
    if w == 8 { } else { }
  }

  ghost predicate Marked(words: seq<nat>, w: nat, idx: nat)
    requires Width(w)
  {
    idx / w < |words| && Bit(words[idx / w], idx % w)
  }

  ghost function SetOf(words: seq<nat>, w: nat, n: nat): set<nat>
    requires Width(w)
  {
    set idx: nat | idx < n && Marked(words, w, idx)
  }

  /** words[idx / w] |= 1 << (idx % w) */
  lemma SetBitAdds(words: seq<nat>, w: nat, n: nat, idx: nat)
    requires WordsOk(words, w, n) && idx < n
    ensures idx / w < |words|
    ensures var words' := words[idx / w := Or(words[idx / w], Pow2(idx % w))];
            WordsOk(words', w, n) && SetOf(words', w, n) == SetOf(words, w, n) + {idx}
  {
    hide Or, Pow2, Bit;
    InWords(w, n, idx);
    var k, b := idx / w, idx % w;
    var v := words[k];
    OrPow2(v, b);
    var words' := words[k := Or(v, Pow2(b))];
    if !Bit(v, b) {
      BitAfterAdd(w, v, b, b);
    }
    forall j: nat | j < n ensures Marked(words', w, j) <==> j == idx || Marked(words, w, j) {
      InWords(w, n, j);
      if j / w == k {
        if !Bit(v, b) { BitAfterAdd(w, v, b, j % w); }
        if j % w == b { SamePosition(w, j, idx); }
      }
    }
  }

  /** words[idx / w] &= ~(1 << (idx % w)) */
  lemma ClearBitRemoves(words: seq<nat>, w: nat, n: nat, idx: nat)
    requires WordsOk(words, w, n) && idx < n
    ensures idx / w < |words| && Pow2(idx % w) < Pow2(w)
    ensures var words' := words[idx / w := And(words[idx / w], Not(w, Pow2(idx % w)))];
            WordsOk(words', w, n) && SetOf(words', w, n) == SetOf(words, w, n) - {idx}
  {
    hide And, Pow2, Bit;
    InWords(w, n, idx);
    var k, b := idx / w, idx % w;
    var v := words[k];
    AndNotPow2(w, v, b);
    var words' := words[k := And(v, Not(w, Pow2(b)))];
    forall j: nat | j < n ensures Marked(words', w, j) <==> j != idx && Marked(words, w, j) {
      InWords(w, n, j);
      if j / w == k {
        if Bit(v, b) { BitAfterSub(v, b, j % w); }
        if j % w == b { SamePosition(w, j, idx); }
      }
    }
  }

  /** (words[idx / w] >> (idx % w)) & 1 */
  lemma TestBitReads(words: seq<nat>, w: nat, n: nat, idx: nat)
    requires WordsOk(words, w, n) && idx < n
    ensures idx / w < |words|
    ensures And(Shr(words[idx / w], idx % w), 1) != 0 <==> idx in SetOf(words, w, n)
  {
    InWords(w, n, idx);
    ShrAndOne(words[idx / w], idx % w);
  }

  lemma ZeroWords(words: seq<nat>, w: nat, n: nat)
    requires Width(w) && |words| == (n + w - 1) / w && forall k :: 0 <= k < |words| ==> words[k] == 0
    ensures WordsOk(words, w, n) && SetOf(words, w, n) == {}
  {
    forall j: nat | j < n ensures !Marked(words, w, j) {
      InWords(w, n, j);
      ZeroBit(j % w);
    }
  }

  /** Two bitmaps for the same set of whole words are equal word for word. */
  lemma SetDeterminesWords(u: seq<nat>, v: seq<nat>, w: nat, n: nat)
    requires WordsOk(u, w, n) && WordsOk(v, w, n) && n % w == 0 && SetOf(u, w, n) == SetOf(v, w, n)
    ensures u == v
  {
    forall k | 0 <= k < |u| ensures u[k] == v[k] {
      forall b | 0 <= b < w ensures Bit(u[k], b) == Bit(v[k], b) {
        var j := Position(w, n, k, b);
        assert Marked(u, w, j) <==> j in SetOf(u, w, n);
        assert Marked(v, w, j) <==> j in SetOf(v, w, n);
      }
      BitsDetermine(w, u[k], v[k]);
    }
  }

  lemma Position(w: nat, n: nat, k: nat, b: nat) returns (j: nat)
    requires Width(w) && n % w == 0 && k < (n + w - 1) / w && b < w
    ensures j < n && j / w == k && j % w == b
  {
    j := w * k + b;
    DivModUnique(j, w, k, b);
    if w == 8 { assert 8 * k + 8 <= n; } else { assert 64 * k + 64 <= n; }
  }
}
