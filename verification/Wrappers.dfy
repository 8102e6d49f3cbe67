/** Small definitions used throughout the model. */
module Wrappers {
  datatype Option<+T> = None | Some(value: T)

  lemma RestOfSet<T>(a: set<T>, b: set<T>, c: set<T>)
    requires b <= a
    ensures |a - b| == |a| - |b|
    ensures (a - b) + (c + b) == a + c
  {
  }

  /* ---------- listing a set ---------- */

  /** The first i entries of a list. */
  ghost function Entries<T>(list: seq<T>, i: nat): set<T>
    requires i <= |list|
  {
    if i == 0 then {} else Entries(list, i - 1) + {list[i - 1]}
  }

  ghost function AllEntries<T>(list: seq<T>): set<T> {
    Entries(list, |list|)
  }

  /** A listing of a set without repetitions: it has as many entries as the set has members. */
  ghost predicate Enumerates<T>(list: seq<T>, s: set<T>) {
    AllEntries(list) == s && |list| == |s|
  }

  lemma {:induction false} EntriesHold<T>(list: seq<T>, i: nat, j: nat)
    requires j < i <= |list|
    ensures list[j] in Entries(list, i)
  {
    if j < i - 1 {
      EntriesHold(list, i - 1, j);
    }
  }

  /** An entry has a place in the list. */
  lemma {:induction false} EntryAt<T>(list: seq<T>, i: nat, x: T) returns (j: nat)
    requires i <= |list| && x in Entries(list, i)
    ensures j < i && list[j] == x
  {
    if x == list[i - 1] {
      j := i - 1;
    } else {
      j := EntryAt(list, i - 1, x);
    }
  }

  lemma EntriesAre<T>(list: seq<T>)
    ensures forall x :: x in AllEntries(list) <==> x in list
  {
    forall x ensures x in AllEntries(list) <==> x in list {
      if x in AllEntries(list) {
        var j := EntryAt(list, |list|, x);
      }
      if x in list {
        var j :| 0 <= j < |list| && list[j] == x;
        EntriesHold(list, |list|, j);
      }
    }
  }

  lemma {:induction false} EntriesSize<T>(list: seq<T>, i: nat)
    requires i <= |list|
    ensures |Entries(list, i)| <= i
  {
    if i > 0 {
      EntriesSize(list, i - 1);
    }
  }

  lemma {:induction false} EntriesCongruent<T>(a: seq<T>, b: seq<T>, i: nat)
    requires i <= |a| && i <= |b| && forall j :: 0 <= j < i ==> a[j] == b[j]
    ensures Entries(a, i) == Entries(b, i)
  {
    if i > 0 {
      EntriesCongruent(a, b, i - 1);
    }
  }

  /** No entry of a listing repeats an earlier one. */
  lemma {:induction false} EnumerationPrefix<T>(list: seq<T>, s: set<T>, i: nat)
    requires Enumerates(list, s) && i <= |list|
    ensures |Entries(list, i)| == i && Entries(list, i) <= s
    ensures i < |list| ==> list[i] in s && list[i] !in Entries(list, i)
    decreases |list| - i
  {
    if i < |list| {
      EnumerationPrefix(list, s, i + 1);
      EntriesSize(list, i);
    }
  }

  /** Taking the entries of a listing out of a set, one by one. */
  lemma NextEntry<T>(list: seq<T>, s: set<T>, i: nat)
    requires Enumerates(list, AllEntries(list)) && AllEntries(list) <= s && i < |list|
    ensures list[i] in s - Entries(list, i)
    ensures s - Entries(list, i + 1) == s - Entries(list, i) - {list[i]}
  {
    EnumerationPrefix(list, AllEntries(list), i);
  }

  lemma EnumerateOneMore<T>(list: seq<T>, s: set<T>, x: T)
    requires Enumerates(list, s) && x !in s
    ensures Enumerates(list + [x], s + {x})
  {
    EntriesCongruent(list, list + [x], |list|);
  }

  /** The entries of a list are those before a cut and those behind it. */
  lemma {:induction false} EntriesBehind<T>(list: seq<T>, cut: nat, i: nat)
    requires cut + i <= |list|
    ensures Entries(list[cut..], i) + Entries(list, cut) == Entries(list, cut + i)
  {
    if i > 0 {
      EntriesBehind(list, cut, i - 1);
      assert list[cut..][i - 1] == list[cut + i - 1];
    }
  }

  lemma SubsetOfSameSize<T>(a: set<T>, b: set<T>)
    requires a <= b && |b| <= |a|
    ensures a == b
  {
    assert b == a + (b - a);
  }

  /** A listing cut in two lists what is before the cut and what is behind it. */
  lemma EnumerationSplits<T>(list: seq<T>, s: set<T>, cut: nat)
    requires Enumerates(list, s) && cut <= |list|
    ensures Enumerates(list[..cut], Entries(list, cut))
    ensures Enumerates(list[cut..], s - Entries(list, cut))
  {
    EnumerationPrefix(list, s, cut);
    EntriesCongruent(list, list[..cut], cut);
    BehindCut(list, s, cut, list[cut..]);
  }

  lemma BehindCut<T>(list: seq<T>, s: set<T>, cut: nat, behind: seq<T>)
    requires Enumerates(list, s) && cut <= |list| && behind == list[cut..]
    requires |Entries(list, cut)| == cut && Entries(list, cut) <= s
    ensures Enumerates(behind, s - Entries(list, cut))
  {
    EntriesBehind(list, cut, |behind|);
    EntriesSize(behind, |behind|);
    RestOfSet(s, Entries(list, cut), {});
    SubsetOfSameSize(s - Entries(list, cut), AllEntries(behind));
  }
}
