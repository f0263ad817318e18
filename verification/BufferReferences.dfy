/** Producer-local pins: native references that keep a slot from being reacquired, whatever the remote side did. */
module BufferPins {
  import opened Basics
  import opened Base
  import T = ReadLedgers

  const MAX_REFERENCES: nat := 256

  datatype Entry = Entry(token: nat, slot: nat)

  function Weight(e: Entry, slot: nat): nat {
    if e.token != 0 && e.slot == slot then 1 else 0
  }

  function Used(e: Entry): nat {
    if e.token != 0 then 1 else 0
  }

  /** Live entries among the first `n`, for one slot and overall. */
  function SlotCount(es: seq<Entry>, n: nat, slot: nat): nat
    requires n <= |es|
  {
    if n == 0 then 0 else SlotCount(es, n - 1, slot) + Weight(es[n - 1], slot)
  }

  function TotalCount(es: seq<Entry>, n: nat): nat
    requires n <= |es|
  {
    if n == 0 then 0 else TotalCount(es, n - 1) + Used(es[n - 1])
  }

  lemma {:induction false} CountsAfter(es: seq<Entry>, n: nat, i: nat, e: Entry, slot: nat)
    requires n <= |es| && i < |es|
    ensures SlotCount(es[i := e], n, slot) == SlotCount(es, n, slot) + if i < n
      then Weight(e, slot) - Weight(es[i], slot) else 0
    ensures TotalCount(es[i := e], n) == TotalCount(es, n) + if i < n then Used(e) - Used(es[i]) else 0
  {
    if n > 0 {
      CountsAfter(es, n - 1, i, e, slot);
    }
  }

  lemma {:induction false} ZeroCounts(es: seq<Entry>, n: nat, slot: nat)
    requires n <= |es|
    ensures SlotCount(es, n, slot) == 0 <==> forall i :: 0 <= i < n ==> Weight(es[i], slot) == 0
    ensures TotalCount(es, n) == 0 <==> forall i :: 0 <= i < n ==> Used(es[i]) == 0
  {
    if n > 0 {
      ZeroCounts(es, n - 1, slot);
    }
  }

  ghost predicate Recorded(es: seq<Entry>, t: nat) {
    exists i :: 0 <= i < |es| && es[i].token == t
  }

  /** The entry table against the live pins, token to slot. */
  ghost predicate TableMatches(es: seq<Entry>, live: map<nat, nat>, next: nat) {
    && |es| == MAX_REFERENCES
    && (forall i :: 0 <= i < |es| && es[i].token != 0 ==>
      es[i].token in live && live[es[i].token] == es[i].slot < MAX_POOL && es[i].token < next)
    && (forall i, j :: 0 <= i < j < |es| && es[i].token != 0 ==> es[i].token != es[j].token)
    && (forall t :: t in live ==> t != 0 && Recorded(es, t))
  }

  ghost predicate CountsMatch(es: seq<Entry>, counts: seq<nat>, total: nat) {
    && |counts| == MAX_POOL
    && (forall s :: 0 <= s < MAX_POOL ==> counts[s] == SlotCount(es, |es|, s))
    && total == TotalCount(es, |es|)
  }

  ghost predicate Represents(es: seq<Entry>, counts: seq<nat>, total: nat, live: map<nat, nat>, next: nat) {
    TableMatches(es, live, next) && CountsMatch(es, counts, total)
  }

  /** A slot's counter is nonzero exactly while some live token pins it, the total exactly while any is live. */
  lemma CountersMeanPins(es: seq<Entry>, counts: seq<nat>, total: nat, live: map<nat, nat>, next: nat, slot: nat)
    requires Represents(es, counts, total, live, next)
    ensures slot < MAX_POOL ==> (counts[slot] != 0 <==> slot in live.Values)
    ensures slot >= MAX_POOL ==> slot !in live.Values
    ensures total == 0 <==> live == map[]
  {
    hide SlotCount, TotalCount;
    ZeroCounts(es, |es|, slot);
    if slot in live.Values {
      var t :| t in live && live[t] == slot;
      var i :| 0 <= i < |es| && es[i].token == t;
      assert Weight(es[i], slot) == 1;
    }
    if live != map[] {
      var t :| t in live;
      var i :| 0 <= i < |es| && es[i].token == t;
      assert Used(es[i]) == 1;
    }
    if i :| 0 <= i < |es| && Used(es[i]) != 0 {
      assert es[i].token in live;
    }
    if i :| 0 <= i < |es| && Weight(es[i], slot) != 0 {
      assert live[es[i].token] == slot;
    }
  }

  lemma AddEntry(es: seq<Entry>, counts: seq<nat>, total: nat, live: map<nat, nat>, next: nat, i: nat, slot: nat)
    requires Represents(es, counts, total, live, next) && next != 0
    requires i < |es| && es[i].token == 0 && slot < MAX_POOL
    ensures Represents(es[i := Entry(next, slot)], counts[slot := counts[slot] + 1], total + 1, live[next := slot],
      next + 1)
  {
    hide SlotCount, TotalCount;
    var e := Entry(next, slot);
    forall s | 0 <= s < MAX_POOL ensures SlotCount(es[i := e], |es|, s) == SlotCount(es, |es|, s) + Weight(e, s) {
      CountsAfter(es, |es|, i, e, s);
    }
    CountsAfter(es, |es|, i, e, slot);
    var es', live' := es[i := e], live[next := slot];
    forall t | t in live' ensures t != 0 && Recorded(es', t) {
      if t == next {
        assert es'[i].token == t;
      } else {
        var j :| 0 <= j < |es| && es[j].token == t;
        assert es'[j].token == t;
      }
    }
  }

  lemma DropEntry(es: seq<Entry>, counts: seq<nat>, total: nat, live: map<nat, nat>, next: nat, i: nat)
    requires Represents(es, counts, total, live, next)
    requires i < |es| && es[i].token != 0
    ensures es[i].slot < MAX_POOL && counts[es[i].slot] > 0 && total > 0
    ensures Represents(es[i := Entry(0, 0)], counts[es[i].slot := counts[es[i].slot] - 1], total - 1,
      live - {es[i].token}, next)
  {
    hide SlotCount, TotalCount;
    var e, slot := Entry(0, 0), es[i].slot;
    ZeroCounts(es, |es|, slot);
    assert Weight(es[i], slot) == 1 && Used(es[i]) == 1;
    forall s | 0 <= s < MAX_POOL ensures SlotCount(es[i := e], |es|, s) == SlotCount(es, |es|, s) - Weight(es[i], s) {
      CountsAfter(es, |es|, i, e, s);
    }
    CountsAfter(es, |es|, i, e, slot);
    forall t | t in live - {es[i].token} ensures t != 0 && Recorded(es[i := e], t) {
      var j :| 0 <= j < |es| && es[j].token == t;
      assert es[i := e][j].token == t;
    }
  }

  function RetainResult(live: map<nat, nat>, slot: nat, next: nat): FlResult {
    if slot >= MAX_POOL then Invalid
    else if |live| >= MAX_REFERENCES then Busy
    else if next >= U64_MAX then Internal
    else Ok
  }

  /** The table is full exactly when as many references are live as it has entries. */
  lemma FullTable(es: seq<Entry>, live: map<nat, nat>, next: nat)
    requires TableMatches(es, live, next)
    ensures |live| <= MAX_REFERENCES
    ensures |live| == MAX_REFERENCES <==> forall i :: 0 <= i < |es| ==> es[i].token != 0
  {
    var table := seq(|es|, i requires 0 <= i < |es| => T.ReaderRecord(es[i].token, es[i].slot, false));
    T.TokenCount(table);
    forall t | t in live ensures t in T.Tokens(table) {
      var i :| 0 <= i < |es| && es[i].token == t;
      assert table[i].token == t;
    }
    assert live.Keys == T.Tokens(table);
    assert forall i :: 0 <= i < |es| ==> table[i].token == es[i].token;
  }

  class BufferReferences {
    const entries: array<Entry>
    const counts: array<nat>
    const tokens: T.TokenSource
    var total: nat
    /** Live pins, token to slot. */
    ghost var live: map<nat, nat>

    ghost predicate Valid()
      reads this, entries, counts, tokens
    {
      tokens.next >= 1 && Represents(entries[..], counts[..], total, live, tokens.next)
    }

    constructor (tokens: T.TokenSource)
      requires tokens.next >= 1
      ensures Valid() && live == map[] && this.tokens == tokens && fresh(entries) && fresh(counts)
    {
      entries := new Entry[MAX_REFERENCES](_ => Entry(0, 0));
      counts := new nat[MAX_POOL](_ => 0);
      this.tokens := tokens;
      total := 0;
      live := map[];
      new;
      ZeroCounts(entries[..], MAX_REFERENCES, 0);
      forall s | 0 <= s < MAX_POOL ensures SlotCount(entries[..], MAX_REFERENCES, s) == 0 {
        ZeroCounts(entries[..], MAX_REFERENCES, s);
      }
    }

    method Busy(slot: nat) returns (b: bool)
      requires Valid()
      ensures b <==> slot in live.Values
    {
      CountersMeanPins(entries[..], counts[..], total, live, tokens.next, slot);
      b := slot < MAX_POOL && counts[slot] != 0;
    }

    method Empty() returns (b: bool)
      requires Valid()
      ensures b <==> live == map[]
    {
      CountersMeanPins(entries[..], counts[..], total, live, tokens.next, 0);
      b := total == 0;
    }

    /** Pins a slot under a token no reference ever had before. */
    method Retain(slot: nat) returns (result: FlResult, t: nat)
      requires Valid()
      modifies this, entries, counts, tokens
      ensures Valid()
      ensures result == Ok ==>
        slot < MAX_POOL && t == old(tokens.next) && tokens.next == t + 1 && t !in old(live)
        && live == old(live)[t := slot]
      ensures result != Ok ==> live == old(live) && tokens.next == old(tokens.next)
      ensures result == RetainResult(old(live), slot, old(tokens.next))
    {
      FullTable(entries[..], live, tokens.next);
      if slot >= MAX_POOL {
        return Invalid, 0;
      }
      var i := 0;
      while i < MAX_REFERENCES
        invariant i <= MAX_REFERENCES
        invariant forall j :: 0 <= j < i ==> entries[j].token != 0
        invariant unchanged(this) && unchanged(entries) && unchanged(counts) && unchanged(tokens)
      {
        if entries[i].token == 0 {
          t := tokens.Take();
          if t == 0 {
            return Internal, 0;
          }
          AddEntry(entries[..], counts[..], total, live, t, i, slot);
          entries[i] := Entry(t, slot);
          counts[slot] := counts[slot] + 1;
          total := total + 1;
          live := live[t := slot];
          assert entries[..] == old(entries[..])[i := Entry(t, slot)];
          assert counts[..] == old(counts[..])[slot := old(counts[slot]) + 1];
          return Ok, t;
        }
        i := i + 1;
      }
      result, t := FlResult.Busy, 0;
    }

    /** Each token releases its pin exactly once. */
    method Release(t: nat) returns (result: FlResult)
      requires Valid()
      modifies this, entries, counts
      ensures Valid()
      ensures result == if t in old(live) then Ok else Invalid
      ensures live == old(live) - {t}
    {
      if t == 0 {
        return Invalid;
      }
      var i := 0;
      while i < MAX_REFERENCES
        invariant i <= MAX_REFERENCES
        invariant forall j :: 0 <= j < i ==> entries[j].token != t
        invariant unchanged(this) && unchanged(entries) && unchanged(counts)
      {
        if entries[i].token == t {
          DropEntry(entries[..], counts[..], total, live, tokens.next, i);
          var slot := entries[i].slot;
          entries[i] := Entry(0, 0);
          counts[slot] := counts[slot] - 1;
          total := total - 1;
          live := live - {t};
          assert entries[..] == old(entries[..])[i := Entry(0, 0)];
          assert counts[..] == old(counts[..])[slot := old(counts[slot]) - 1];
          return Ok;
        }
        i := i + 1;
      }
      assert live - {t} == live;
      result := Invalid;
    }
  }
}
