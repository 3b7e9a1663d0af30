/** Pieces of code laid out back to back. */
module Layout {
  // SH_ENTER_SZ, when islands are in use: the bytes that a moved window may take.
  const ENTER_SIZE := 64

  function Sum(lens: seq<nat>): nat {
    if lens == [] then 0 else Sum(lens[..|lens| - 1]) + lens[|lens| - 1]
  }

  function Concat<T>(parts: seq<seq<T>>): seq<T> {
    if parts == [] then [] else Concat(parts[..|parts| - 1]) + parts[|parts| - 1]
  }

  lemma {:induction false} ConcatTake<T>(parts: seq<seq<T>>, k: nat)
    requires k <= |parts|
    ensures Concat(parts[..k]) <= Concat(parts)
    decreases |parts|
  {
    if k == |parts| {
      assert parts[..k] == parts;
    } else {
      var front := parts[..|parts| - 1];
      ConcatTake(front, k);
      assert front[..k] == parts[..k];
    }
  }

  lemma ConcatSnoc<T>(parts: seq<seq<T>>, k: nat)
    requires k < |parts|
    ensures Concat(parts[..k + 1]) == Concat(parts[..k]) + parts[k]
  {
    assert parts[..k + 1][..k] == parts[..k];
  }

  lemma NoPartsYet<T>(parts: seq<seq<T>>)
    ensures Concat(parts[..0]) == []
  {
  }

  /** One part more has been laid out; an empty part is a failure. */
  lemma OneMorePart<T>(parts: seq<seq<T>>, k: nat)
    requires k < |parts|
    ensures Concat(parts[..k + 1]) == Concat(parts[..k]) + parts[k]
    ensures |Concat(parts[..k + 1])| <= |Concat(parts)|
    ensures if parts[k] == [] then [] in parts else [] !in parts[..k] ==> [] !in parts[..k + 1]
  {
    ConcatSnoc(parts, k);
    ConcatTake(parts, k + 1);
    assert parts[..k + 1] == parts[..k] + [parts[k]];
  }

  /** Piece k starts where the pieces before it end. */
  lemma PartAt<T>(parts: seq<seq<T>>, k: nat)
    requires k < |parts|
    ensures var at := |Concat(parts[..k])|;
            && at + |parts[k]| <= |Concat(parts)|
            && Concat(parts)[at..at + |parts[k]|] == parts[k]
            && |Concat(parts[..k + 1])| == at + |parts[k]|
  {
    ConcatSnoc(parts, k);
    ConcatTake(parts, k + 1);
    var all := Concat(parts);
    assert all[..|Concat(parts[..k + 1])|] == Concat(parts[..k]) + parts[k];
  }

  lemma {:induction false} ConcatLength<T>(parts: seq<seq<T>>, lens: seq<nat>, unit: nat)
    requires |parts| == |lens| && forall k | 0 <= k < |parts| :: unit * |parts[k]| == lens[k]
    ensures unit * |Concat(parts)| == Sum(lens)
  {
    if parts != [] {
      var last := |parts| - 1;
      ConcatLength(parts[..last], lens[..last], unit);
      Distributes(unit, |Concat(parts[..last])|, |parts[last]|);
    }
  }

  lemma Distributes(unit: nat, a: nat, b: nat)
    ensures unit * (a + b) == unit * a + unit * b
  {
  }

  lemma SumSnoc(lens: seq<nat>, k: nat)
    requires k < |lens|
    ensures Sum(lens[..k + 1]) == Sum(lens[..k]) + lens[k]
  {
    assert lens[..k + 1][..k] == lens[..k];
  }

  lemma {:induction false} SumAppend(a: seq<nat>, b: seq<nat>)
    ensures Sum(a + b) == Sum(a) + Sum(b)
  {
    if b == [] {
      assert a + b == a;
    } else {
      var last := |b| - 1;
      SumAppend(a, b[..last]);
      assert (a + b)[..|a + b| - 1] == a + b[..last];
    }
  }

  /** Tables laid end to end add up to what they add up to piece by piece. */
  lemma {:induction false} SumConcat(tables: seq<seq<nat>>, lens: seq<nat>)
    requires |tables| == |lens| && forall k | 0 <= k < |tables| :: Sum(tables[k]) == lens[k]
    ensures Sum(Concat(tables)) == Sum(lens)
  {
    if tables != [] {
      var last := |tables| - 1;
      SumConcat(tables[..last], lens[..last]);
      SumAppend(Concat(tables[..last]), tables[last]);
    }
  }

  /** buf[idx++] = word, for each word; nothing from `end` on is touched. */
  method Append<T>(buf: array<T>, at: nat, words: seq<T>, ghost end: nat)
    requires at + |words| <= end <= buf.Length
    modifies buf
    ensures buf[..at + |words|] == old(buf[..at]) + words
    ensures buf[end..] == old(buf[end..])
  {
    var i := 0;
    while i < |words|
      invariant 0 <= i <= |words|
      invariant buf[..at + i] == old(buf[..at]) + words[..i]
      invariant buf[end..] == old(buf[end..])
    {
      buf[at + i] := words[i];
      i := i + 1;
    }
  }
}
