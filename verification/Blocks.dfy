/** Rep turns on the recorded clock: which utterances one turn answers, and when it starts. */
module Blocks {

  datatype Utterance = Utterance(id: string, sentMs: int)

  /** A recorded rep turn: what it heard, the offers made before it, and how long it took. */
  datatype Turn = Turn(heard: seq<Utterance>, offers: seq<string>, startMs: int, endMs: int)

  datatype Heard = Heard(utt: Utterance, turn: Turn)

  datatype Block = Block(utts: seq<Utterance>, offers: seq<string>)

  function OfTurn(t: Turn): (r: seq<Heard>)
    ensures |r| == |t.heard| && forall k | 0 <= k < |r| :: r[k] == Heard(t.heard[k], t)
  {
    seq(|t.heard|, k requires 0 <= k < |t.heard| => Heard(t.heard[k], t))
  }

  /** All utterances, in delivery order, each with its turn. */
  function AllHeard(turns: seq<Turn>): seq<Heard>
  {
    if turns == [] then [] else OfTurn(turns[0]) + AllHeard(turns[1..])
  }

  function Utterances(heard: seq<Heard>): (r: seq<Utterance>)
    ensures |r| == |heard| && forall k | 0 <= k < |r| :: r[k] == heard[k].utt
  {
    seq(|heard|, k requires 0 <= k < |heard| => heard[k].utt)
  }

  function Flat(blocks: seq<Block>): seq<Utterance>
  {
    if blocks == [] then [] else Flat(blocks[..|blocks| - 1]) + blocks[|blocks| - 1].utts
  }

  function Later(a: int, b: int): int
  {
    if a < b then b else a
  }

  /** One block on the clock: the utterances `first` up to `last` of all, and when the turn starts. */
  datatype Span = Span(first: nat, last: nat, start: int)

  function Lasts(t: Turn): int
  {
    t.endMs - t.startMs
  }

  function EndOf(spans: seq<Span>): nat
  {
    if spans == [] then 0 else spans[|spans| - 1].last
  }

  /** When the rep is free again. */
  function FreeAt(heard: seq<Heard>, spans: seq<Span>): int
  {
    if spans == [] then -1
    else
      var s := spans[|spans| - 1];
      s.start + if s.first < |heard| then Lasts(heard[s.first].turn) else 0
  }

  /**
   Block `k` begins where the one before ends and starts once its first utterance is sent and the rep
   is free. It takes what was sent by then, and all of it that comes next.
   */
  ghost predicate Slot(heard: seq<Heard>, blocks: seq<Block>, spans: seq<Span>, k: nat)
    requires k < |spans| == |blocks|
  {
    var s := spans[k];
    && s.first == EndOf(spans[..k]) && s.first < s.last <= |heard|
    && blocks[k] == Block(Utterances(heard[s.first..s.last]), heard[s.first].turn.offers)
    && s.start == Later(heard[s.first].utt.sentMs, FreeAt(heard, spans[..k]))
    && (forall i | s.first <= i < s.last :: heard[i].utt.sentMs <= s.start)
    && (s.last < |heard| ==> heard[s.last].utt.sentMs > s.start)
  }

  /** The schedule of the recorded clock. */
  ghost predicate Schedule(heard: seq<Heard>, blocks: seq<Block>, spans: seq<Span>) {
    |spans| == |blocks| && forall k | 0 <= k < |blocks| :: Slot(heard, blocks, spans, k)
  }

  /** `d1_blocks`. */
  method D1Blocks(turns: seq<Turn>) returns (blocks: seq<Block>, ghost spans: seq<Span>)
    ensures Schedule(AllHeard(turns), blocks, spans) && EndOf(spans) == |AllHeard(turns)|
    ensures Flat(blocks) == Utterances(AllHeard(turns))
  {
    hide AllHeard, Schedule, Flat, Later;
    var heard := AllHeard(turns);
    blocks, spans := [], [];
    NoBlocks(heard);
    var free, i := -1, 0;
    while i < |heard|
      invariant 0 <= i <= |heard| && Schedule(heard, blocks, spans)
      invariant EndOf(spans) == i && FreeAt(heard, spans) == free
      invariant Flat(blocks) == Utterances(heard[..i])
    {
      var first, turn := heard[i].utt, heard[i].turn;
      var start := Later(first.sentMs, free);
      AtLeast(first.sentMs, free);
      var j := i + 1;
      while j < |heard| && heard[j].utt.sentMs <= start
        invariant i < j <= |heard|
        invariant forall k | i <= k < j :: heard[k].utt.sentMs <= start
      {
        j := j + 1;
      }
      var block := Block(Utterances(heard[i..j]), turn.offers);
      ScheduleNext(heard, blocks, spans, block, Span(i, j, start));
      FlatNext(blocks, block);
      assert Utterances(heard[..j]) == Utterances(heard[..i]) + Utterances(heard[i..j]);
      blocks, spans := blocks + [block], spans + [Span(i, j, start)];
      free, i := start + Lasts(turn), j;
    }
    assert heard[..|heard|] == heard;
  }

  lemma NoBlocks(heard: seq<Heard>)
    ensures Schedule(heard, [], []) && Flat([]) == []
  {}

  lemma AtLeast(a: int, b: int)
    ensures a <= Later(a, b) && b <= Later(a, b)
  {}

  lemma FlatNext(blocks: seq<Block>, block: Block)
    ensures Flat(blocks + [block]) == Flat(blocks) + block.utts
  {
    assert (blocks + [block])[..|blocks|] == blocks;
  }

  lemma ScheduleNext(heard: seq<Heard>, blocks: seq<Block>, spans: seq<Span>, block: Block, s: Span)
    requires Schedule(heard, blocks, spans)
    requires s.first == EndOf(spans) && s.first < s.last <= |heard|
    requires block == Block(Utterances(heard[s.first..s.last]), heard[s.first].turn.offers)
    requires s.start == Later(heard[s.first].utt.sentMs, FreeAt(heard, spans))
    requires forall k | s.first <= k < s.last :: heard[k].utt.sentMs <= s.start
    requires s.last < |heard| ==> heard[s.last].utt.sentMs > s.start
    ensures Schedule(heard, blocks + [block], spans + [s])
  {
    hide Utterances, Later, FreeAt, EndOf;
    var blocks', spans' := blocks + [block], spans + [s];
    forall k | 0 <= k < |blocks'|
      ensures Slot(heard, blocks', spans', k)
    {
      if k < |blocks| {
        assert Slot(heard, blocks, spans, k);
        assert spans'[..k] == spans[..k];
      } else {
        assert spans'[..k] == spans;
      }
    }
  }

  /**
   Starts strictly increase, however long the recorded turns took, and no turn starts before the one
   before is over.
   */
  lemma StartsIncrease(heard: seq<Heard>, blocks: seq<Block>, spans: seq<Span>, k: nat)
    requires Schedule(heard, blocks, spans) && 0 < k < |blocks|
    ensures spans[k - 1].first < |heard| && spans[k - 1].start < spans[k].start
    ensures spans[k - 1].start + Lasts(heard[spans[k - 1].first].turn) <= spans[k].start
  {
    hide Utterances;
    assert Slot(heard, blocks, spans, k) && Slot(heard, blocks, spans, k - 1);
    assert spans[..k][k - 1] == spans[k - 1];
  }

  /** The first turn starts when its first utterance is sent, and each other when the one before is over, too. */
  lemma StartsAre(heard: seq<Heard>, blocks: seq<Block>, spans: seq<Span>, k: nat)
    requires Schedule(heard, blocks, spans) && k < |blocks|
    ensures spans[k].first < |heard| && (k > 0 ==> spans[k - 1].first < |heard|)
    ensures var start, sent := spans[k].start, heard[spans[k].first].utt.sentMs;
      if k == 0 then spans[k].first == 0 && start == if sent < -1 then -1 else sent
      else
        var t := heard[spans[k - 1].first].turn;
        var free := spans[k - 1].start + (t.endMs - t.startMs);
        spans[k].first == spans[k - 1].last && start >= sent && start >= free && (start == sent || start == free)
  {
    hide Utterances;
    assert Slot(heard, blocks, spans, k);
    if k > 0 {
      assert Slot(heard, blocks, spans, k - 1);
      assert spans[..k][k - 1] == spans[k - 1];
    }
  }

  /** What the turns heard, turn by turn. */
  lemma {:induction false} AllHeardNext(turns: seq<Turn>, t: Turn)
    ensures AllHeard([]) == []
    ensures AllHeard(turns + [t]) == AllHeard(turns) + OfTurn(t)
  {
    var all := turns + [t];
    if turns == [] {
      assert all[1..] == [];
    } else {
      assert all[1..] == turns[1..] + [t];
      AllHeardNext(turns[1..], t);
    }
  }

  /** There is only one such schedule. */
  lemma {:induction false} ScheduleUnique(
      heard: seq<Heard>, a: seq<Block>, s: seq<Span>, b: seq<Block>, t: seq<Span>, k: nat)
    requires Schedule(heard, a, s) && Schedule(heard, b, t) && k <= |a| && k <= |b|
    ensures s[..k] == t[..k] && a[..k] == b[..k]
  {
    hide Utterances, Later, FreeAt, EndOf;
    if k > 0 {
      var i := k - 1;
      ScheduleUnique(heard, a, s, b, t, i);
      assert Slot(heard, a, s, i) && Slot(heard, b, t, i);
      SameLast(heard, s[i], t[i]);
      assert s[..k] == s[..i] + [s[i]] && t[..k] == t[..i] + [t[i]];
      assert a[..k] == a[..i] + [a[i]] && b[..k] == b[..i] + [b[i]];
    }
  }

  lemma SameLast(heard: seq<Heard>, s: Span, t: Span)
    requires s.first == t.first && s.start == t.start
    requires s.first < s.last <= |heard| && t.first < t.last <= |heard|
    requires forall i | s.first <= i < s.last :: heard[i].utt.sentMs <= s.start
    requires forall i | t.first <= i < t.last :: heard[i].utt.sentMs <= t.start
    requires s.last < |heard| ==> heard[s.last].utt.sentMs > s.start
    requires t.last < |heard| ==> heard[t.last].utt.sentMs > t.start
    ensures s == t
  {}
}
