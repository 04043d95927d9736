/** Card ids name their offer revision, epoch and count, and nothing else. */
module Identifiers {
  import opened Contract
  import opened Guard

  predicate IsDigit(c: char) {
    '0' <= c <= '9'
  }

  function Value(s: string): nat
    requires forall i | 0 <= i < |s| :: IsDigit(s[i])
  {
    if s == "" then 0
    else
      assert IsDigit(s[|s| - 1]);
      10 * Value(s[..|s| - 1]) + (s[|s| - 1] as int - '0' as int)
  }

  lemma DigitValue(d: nat)
    requires d < 10
    ensures IsDigit(Digit(d)) && Digit(d) as int - '0' as int == d
  {}

  /** A decimal numeral reads back as its number. */
  lemma {:induction false} ValueDigits(n: nat)
    ensures Digits(n) != "" && forall i | 0 <= i < |Digits(n)| :: IsDigit(Digits(n)[i])
    ensures Value(Digits(n)) == n
  {
    hide Digit, IsDigit;
    var d := Digit(n % 10);
    DigitValue(n % 10);
    if n < 10 {
      assert [d][..0] == "";
    } else {
      ValueDigits(n / 10);
      var s := Digits(n / 10);
      assert (s + [d])[..|s|] == s;
    }
  }

  lemma NoDigit(n: nat, c: char)
    requires !IsDigit(c)
    ensures c !in Digits(n)
  {
    hide Digits;
    ValueDigits(n);
  }

  lemma DigitsInjective(m: nat, n: nat)
    requires Digits(m) == Digits(n)
    ensures m == n
  {
    hide Digits;
    ValueDigits(m);
    ValueDigits(n);
  }

  /** What follows the last separator is determined. */
  lemma LastSeparator(a: string, x: string, b: string, y: string, c: char)
    requires a + [c] + x == b + [c] + y && c !in x && c !in y
    ensures a == b && x == y
  {
    var s := a + [c] + x;
    assert s[|a|] == c && s[|b|] == c;
    assert forall k | |a| < k < |s| :: s[k] == x[k - |a| - 1];
    assert forall k | |b| < k < |s| :: s[k] == y[k - |b| - 1];
    assert |a| == |b|;
    assert a == s[..|a|] && b == s[..|b|];
    assert x == s[|a| + 1..] && y == s[|b| + 1..];
  }

  lemma SameSuffix(a: string, b: string, c: string)
    requires a + c == b + c
    ensures a == b
  {
    assert a == (a + c)[..|a|] && b == (b + c)[..|b|];
  }

  lemma SamePrefix(a: string, b: string, c: string)
    requires c + a == c + b
    ensures a == b
  {
    assert a == (c + a)[|c|..] && b == (c + b)[|c|..];
  }

  /** One numbered part of an id. */
  lemma Numbered(a: string, m: nat, b: string, n: nat, c: char)
    requires a + [c] + Digits(m) == b + [c] + Digits(n) && !IsDigit(c)
    ensures a == b && m == n
  {
    hide Digits;
    NoDigit(m, c);
    NoDigit(n, c);
    LastSeparator(a, Digits(m), b, Digits(n), c);
    DigitsInjective(m, n);
  }

  /** A card id determines its offer, its revision, its epoch and its count. */
  lemma CardIdInjective(
      ref: string, revision: nat, epoch: nat, m: nat, ref': string, revision': nat, epoch': nat, n: nat)
    requires CardId(ref, revision, epoch, m) == CardId(ref', revision', epoch', n)
    ensures ref == ref' && revision == revision' && epoch == epoch' && m == n
  {
    hide Digits;
    var r, r' := "apr-" + ref + "-", "apr-" + ref' + "-";
    var e, e' := r + ['r'] + Digits(revision) + "-", r' + ['r'] + Digits(revision') + "-";
    Numbered(e + ['e'] + Digits(epoch), m, e' + ['e'] + Digits(epoch'), n, '-');
    Numbered(e, epoch, e', epoch', 'e');
    SameSuffix(r + ['r'] + Digits(revision), r' + ['r'] + Digits(revision'), "-");
    Numbered(r, revision, r', revision', 'r');
    SameSuffix("apr-" + ref, "apr-" + ref', "-");
    SamePrefix(ref, ref', "apr-");
  }

  lemma StemOfCardId(ref: string, revision: nat, epoch: nat, n: nat)
    ensures Stem(ref, revision, epoch) <= CardId(ref, revision, epoch, n)
  {
    hide Stem, Digits;
  }

  // ---------------------------------------------------------------- counting decided ids

  lemma {:induction false} CountStemAdd(approvals: seq<Approval>, a: Approval, stem: string)
    ensures CountStem([], stem) == 0
    ensures CountStem(approvals + [a], stem) == CountStem(approvals, stem) + if stem <= a.id then 1 else 0
  {
    if approvals == [] {
      assert approvals + [a] == [a] && [a][1..] == [];
    } else {
      assert (approvals + [a])[1..] == approvals[1..] + [a];
      CountStemAdd(approvals[1..], a, stem);
    }
  }

  lemma {:induction false} PutFreshApproval(approvals: seq<Approval>, a: Approval)
    requires !HasApproval(approvals, a.id)
    ensures PutApproval(approvals, a) == approvals + [a]
  {
    if approvals != [] {
      assert approvals[0].id != a.id;
      assert !HasApproval(approvals[1..], a.id) by {
        assert forall i | 0 <= i < |approvals[1..]| :: approvals[1..][i] == approvals[i + 1];
      }
      PutFreshApproval(approvals[1..], a);
      assert approvals + [a] == [approvals[0]] + (approvals[1..] + [a]);
    }
  }
}
