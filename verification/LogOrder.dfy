/** Logs whose thread sequence numbers climb. */
module LogOrder {
  import opened Basics
  import opened Messages
  import opened Pairing
  import opened Groups
  import opened GroupLaws

  lemma {:induction false} ClimbApart(numbers: seq<nat>, i: nat, j: nat)
    requires Climbing(numbers) && i < j < |numbers|
    ensures numbers[i] < numbers[j]
    decreases j
  {
    if i < j - 1 { ClimbApart(numbers, i, j - 1); }
  }

  lemma {:induction false} ClimbingPairs(log: seq<Message>, i: nat, j: nat)
    requires Climbing(ThreadSeqs(log)) && i < j < |log|
    ensures log[i].threadSeq < log[j].threadSeq
    decreases j
  {
    assert ThreadSeqs(log)[j - 1] < ThreadSeqs(log)[j];
    if i < j - 1 { ClimbingPairs(log, i, j - 1); }
  }

  lemma PrefixClimbs(log: seq<Message>, n: nat)
    requires Climbing(ThreadSeqs(log)) && n <= |log|
    ensures Climbing(ThreadSeqs(log[..n]))
  {
    var all, front := ThreadSeqs(log), ThreadSeqs(log[..n]);
    forall i | 0 < i < |front| ensures front[i - 1] < front[i] {
      assert front[i] == all[i] && front[i - 1] == all[i - 1];
    }
  }

  lemma {:induction false} SuffixClimbs(log: seq<Message>, n: nat)
    requires Climbing(ThreadSeqs(log)) && n <= |log|
    ensures Climbing(ThreadSeqs(log[n..]))
  {
    var a, b := ThreadSeqs(log), ThreadSeqs(log[n..]);
    forall i | 0 < i < |b| ensures b[i - 1] < b[i] { assert b[i] == a[n + i] && b[i - 1] == a[n + i - 1]; }
  }

  lemma ClimbSnoc(front: seq<Message>, m: Message)
    requires Climbing(ThreadSeqs(front))
    ensures front == [] || front[|front| - 1].threadSeq < m.threadSeq ==> Climbing(ThreadSeqs(front + [m]))
  {
    var before, now := ThreadSeqs(front), ThreadSeqs(front + [m]);
    assert now == before + [m.threadSeq];
  }

  lemma {:induction false} LastOfPrefix(log: seq<Message>, selected: seq<Message>)
    requires Climbing(ThreadSeqs(log)) && selected <= log
    ensures forall m :: m in selected ==> m.threadSeq <= selected[|selected| - 1].threadSeq
  {
    forall k | 0 <= k < |selected| - 1 ensures selected[k].threadSeq <= selected[|selected| - 1].threadSeq {
      ClimbingPairs(log, k, |selected| - 1);
    }
  }

  /** Messages of an earlier chunk come before those of a later one. */
  lemma {:induction false} ChunksInOrder(chunks: seq<Chunk>, j: nat, i: nat, a: Message, b: Message)
    requires Climbing(ThreadSeqs(AllItems(chunks))) && j < i < |chunks| && a in chunks[j].items && b in chunks[i].items
    ensures a.threadSeq < b.threadSeq
    decreases j
  {
    var all, first, rest := AllItems(chunks), chunks[0].items, AllItems(chunks[1..]);
    if j == 0 {
      ItemsInLog(chunks[1..], chunks[i], b);
      var p :| 0 <= p < |first| && first[p] == a;
      var q :| 0 <= q < |rest| && rest[q] == b;
      assert all[p] == a && all[|first| + q] == b;
      ClimbingPairs(all, p, |first| + q);
    } else {
      SuffixClimbs(all, |first|);
      assert all[|first|..] == rest;
      ChunksInOrder(chunks[1..], j - 1, i - 1, a, b);
    }
  }
}
