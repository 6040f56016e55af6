/** Structure of the single-block hash: each round is a permutation of the state, the
    schedule can be run in both directions, and so no information about the message is
    lost before the final addition. */
module ShaStructure {
  import opened CTypes
  import opened Fips180

  // ---------- rounds ----------

  function Difference(x: bv32, y: bv32): bv32 { x - y }

  function InverseRound(s: Hash, k: bv32, w: bv32): Hash
  {
    var t1 := Difference(s.a, Sum2(BigSigma0(s.b), Maj(s.b, s.c, s.d)));
    Hash(s.b, s.c, s.d, Difference(s.e, t1), s.f, s.g, s.h,
         Difference(t1, Sum4(BigSigma1(s.f), Ch(s.f, s.g, s.h), k, w)))
  }

  lemma RoundIsAPermutation(s: Hash, k: bv32, w: bv32)
    ensures InverseRound(Round(s, k, w), k, w) == s
    ensures Round(InverseRound(s, k, w), k, w) == s
  {
    hide BigSigma0, BigSigma1, Ch, Maj, Sum2, Sum4, Sum5, Difference;
    var s1, ch := BigSigma1(s.e), Ch(s.e, s.f, s.g);
    var t1, t2 := Sum5(s.h, s1, ch, k, w), Sum2(BigSigma0(s.a), Maj(s.a, s.b, s.c));
    SumUndone(t1, t2);
    SumUndone(s.d, t1);
    SumsUndone(s.h, s1, ch, k, w);
    var u2 := Sum2(BigSigma0(s.b), Maj(s.b, s.c, s.d));
    var u1 := Difference(s.a, u2);
    SumUndone(s.a, u2);
    SumUndone(s.e, u1);
    SumsUndone(u1, BigSigma1(s.f), Ch(s.f, s.g, s.h), k, w);
  }

  lemma SumUndone(x: bv32, y: bv32)
    ensures Difference(Sum2(x, y), y) == x && Sum2(Difference(x, y), y) == x
  {
    calc {
      Difference(Sum2(x, y), y);
      Difference(x + y, y);
      (x + y) - y;
      x;
    }
    calc {
      Sum2(Difference(x, y), y);
      Sum2(x - y, y);
      (x - y) + y;
      x;
    }
  }

  lemma SumsUndone(x: bv32, p: bv32, q: bv32, r: bv32, s: bv32)
    ensures Difference(Sum5(x, p, q, r, s), Sum4(p, q, r, s)) == x
    ensures Sum5(Difference(x, Sum4(p, q, r, s)), p, q, r, s) == x
  {
    calc {
      Difference(Sum5(x, p, q, r, s), Sum4(p, q, r, s));
      Difference(x + p + q + r + s, p + q + r + s);
      (x + p + q + r + s) - (p + q + r + s);
      x;
    }
    calc {
      Sum5(Difference(x, Sum4(p, q, r, s)), p, q, r, s);
      Sum5(Difference(x, p + q + r + s), p, q, r, s);
      Sum5(x - (p + q + r + s), p, q, r, s);
      (x - (p + q + r + s)) + p + q + r + s;
      x;
    }
  }

  /** Folds the inverse round backwards over the first `n` words. */
  function Unwound(s: Hash, w: seq<bv32>, n: nat): Hash
    requires n <= 64 && n <= |w|
    decreases n
  {
    if n == 0 then s else Unwound(InverseRound(s, K()[n - 1], w[n - 1]), w, n - 1)
  }

  /** For any schedule words the rounds are a permutation of the eight-word state. */
  lemma {:induction false} RoundsArePermutation(s: Hash, w: seq<bv32>, n: nat)
    requires n <= 64 && n <= |w|
    ensures Unwound(Rounds(s, w, n), w, n) == s
    ensures Rounds(Unwound(s, w, n), w, n) == s
    decreases n
  {
    hide Round, InverseRound, K;
    if n != 0 {
      var before := Rounds(s, w, n - 1);
      RoundIsAPermutation(before, K()[n - 1], w[n - 1]);
      RoundsArePermutation(s, w, n - 1);
      RoundIsAPermutation(s, K()[n - 1], w[n - 1]);
      RoundsArePermutation(InverseRound(s, K()[n - 1], w[n - 1]), w, n - 1);
    }
  }

  // ---------- schedule ----------

  /** Word `i` from the 16 words after it. */
  function PreviousWord(w: seq<bv32>, i: nat): bv32
    requires i + 16 < |w|
  {
    Difference(Difference(Difference(w[i + 16], SmallSigma1(w[i + 14])), w[i + 9]), SmallSigma0(w[i + 1]))
  }

  lemma {:induction false} ScheduleIsPrefix(words: seq<bv32>, n: nat, m: nat)
    requires |words| == 16 && n <= m
    ensures Schedule(words, m)[..n] == Schedule(words, n)
  {
    if n < m {
      ScheduleIsPrefix(words, n, m - 1);
      assert Schedule(words, m)[..n] == Schedule(words, m - 1)[..n];
    }
  }

  lemma ScheduleWord(words: seq<bv32>, t: nat)
    requires |words| == 16 && t < 64
    ensures var w := Schedule(words, 64);
            w[t] == if t < 16 then words[t] else NextWord(w[..t])
  {
    hide NextWord;
    ScheduleIsPrefix(words, t + 1, 64);
    ScheduleIsPrefix(words, t, 64);
    assert Schedule(words, 64)[t] == Schedule(words, t + 1)[t];
  }

  lemma WordsRunBackwards(words: seq<bv32>, i: nat)
    requires |words| == 16 && i + 16 < 64
    ensures Schedule(words, 64)[i] == PreviousWord(Schedule(words, 64), i)
  {
    hide SmallSigma0, SmallSigma1, Schedule, Sum4, Difference;
    var w := Schedule(words, 64);
    ScheduleWord(words, i + 16);
    NextWordInverted(w[i], SmallSigma1(w[i + 14]), w[i + 9], SmallSigma0(w[i + 1]));
  }

  lemma NextWordInverted(x: bv32, s1: bv32, y: bv32, s0: bv32)
    ensures Difference(Difference(Difference(Sum4(s1, y, s0, x), s1), y), s0) == x
  {
    calc {
      Difference(Difference(Difference(Sum4(s1, y, s0, x), s1), y), s0);
      Difference(Difference(Difference(s1 + y + s0 + x, s1), y), s0);
      Difference(Difference(y + s0 + x, y), s0);
      Difference(s0 + x, s0);
      x;
    }
  }

  /** Any 16 consecutive words determine the whole 64-word schedule, in both directions. */
  lemma {:induction false} SixteenWordsDetermineAll(u: seq<bv32>, v: seq<bv32>, i: nat)
    requires |u| == 16 && |v| == 16 && i + 16 <= 64
    requires forall t :: i <= t < i + 16 ==> Schedule(u, 64)[t] == Schedule(v, 64)[t]
    ensures u == v
    decreases i
  {
    hide SmallSigma0, SmallSigma1, Schedule, NextWord, Difference;
    if i == 0 {
      forall t | 0 <= t < 16
        ensures u[t] == v[t]
      {
        ScheduleWord(u, t);
        ScheduleWord(v, t);
      }
    } else {
      WordsRunBackwards(u, i - 1);
      WordsRunBackwards(v, i - 1);
      SixteenWordsDetermineAll(u, v, i - 1);
    }
  }

  lemma PackIsInjective(a0: byte, a1: byte, a2: byte, a3: byte, b0: byte, b1: byte, b2: byte, b3: byte)
    requires Pack(a0, a1, a2, a3) == Pack(b0, b1, b2, b3)
    ensures a0 == b0 && a1 == b1 && a2 == b2 && a3 == b3
  {}

  lemma BlockWordsIsInjective(a: seq<byte>, b: seq<byte>)
    requires |a| == 64 && |b| == 64 && BlockWords(a) == BlockWords(b)
    ensures a == b
  {
    hide Pack;
    forall k | 0 <= k < 64
      ensures a[k] == b[k]
    {
      var t := k / 4;
      assert BlockWords(a)[t] == BlockWords(b)[t];
      PackIsInjective(a[4 * t], a[4 * t + 1], a[4 * t + 2], a[4 * t + 3],
                      b[4 * t], b[4 * t + 1], b[4 * t + 2], b[4 * t + 3]);
      assert k == 4 * t || k == 4 * t + 1 || k == 4 * t + 2 || k == 4 * t + 3;
    }
  }

  /** Any 16 consecutive schedule words of a one-block message determine the message. */
  lemma WindowDeterminesMessage(m: seq<byte>, o: seq<byte>, i: nat)
    requires |m| <= 55 && |o| <= 55 && i + 16 <= 64
    ensures SameWindow(OneBlock(m), OneBlock(o), i) <==> m == o
  {
    hide Schedule, BlockWords;
    if SameWindow(OneBlock(m), OneBlock(o), i) {
      SixteenWordsDetermineAll(BlockWords(OneBlock(m)), BlockWords(OneBlock(o)), i);
      BlockWordsIsInjective(OneBlock(m), OneBlock(o));
      PaddingIsInjective(m, o);
    }
  }

  /** The schedules of two blocks agree in the 16 words from `i` on. */
  ghost predicate SameWindow(a: seq<byte>, b: seq<byte>, i: nat)
    requires |a| == 64 && |b| == 64 && i + 16 <= 64
  {
    forall t :: i <= t < i + 16 ==> Schedule(BlockWords(a), 64)[t] == Schedule(BlockWords(b), 64)[t]
  }
}
