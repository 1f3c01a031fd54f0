/** The sorted multimap behind Gameexe, its prefix filter, and the parts of a key. */
module GameexeStore {
  import opened Bytes
  import opened Sequences
  import opened GameexeValues

  datatype Entry = Entry(key: string, values: seq<Val>)

  // ------------------------------------------------------------------------------------------ order

  /** std::string's order. */
  predicate Less(a: string, b: string) {
    b != "" && (a == "" || a[0] < b[0] || (a[0] == b[0] && Less(a[1..], b[1..])))
  }

  /** A string with which both go on for `k` characters, and then the one has ended or has the smaller character. */
  predicate SmallerAt(a: string, b: string, k: nat) {
    k <= |a| && k < |b| && a[..k] == b[..k] && (k == |a| || a[k] as int < b[k] as int)
  }

  /** The order is that of a dictionary. */
  lemma {:induction false} LessIsLexicographic(a: string, b: string)
    ensures Less(a, b) <==> exists k: nat :: SmallerAt(a, b, k)
    decreases |a|
  {
    if a != "" && b != "" && a[0] == b[0] {
      LessIsLexicographic(a[1..], b[1..]);
      if k: nat :| SmallerAt(a[1..], b[1..], k) {
        Longer(a, b, k);
        assert SmallerAt(a, b, k + 1);
      }
      if k: nat :| SmallerAt(a, b, k) {
        assert k > 0;
        Longer(a, b, k - 1);
        assert SmallerAt(a[1..], b[1..], k - 1);
      }
    } else {
      if b != "" && (a == "" || a[0] < b[0]) {
        assert SmallerAt(a, b, 0);
      }
      forall k: nat | SmallerAt(a, b, k) ensures k == 0 {
        SameFirst(a, b, k);
      }
    }
  }

  lemma SameFirst(a: string, b: string, k: nat)
    requires SmallerAt(a, b, k)
    ensures k > 0 ==> a[0] == b[0]
  {
    if k > 0 {
      assert a[0] == a[..k][0] && b[0] == b[..k][0];
    }
  }

  lemma Longer(a: string, b: string, k: nat)
    requires a != "" && b != "" && a[0] == b[0] && k < |a| && k < |b|
    ensures a[..k + 1] == b[..k + 1] <==> a[1..][..k] == b[1..][..k]
  {
    assert a[..k + 1] == [a[0]] + a[1..][..k] && b[..k + 1] == [b[0]] + b[1..][..k];
    assert a[1..][..k] == a[..k + 1][1..] && b[1..][..k] == b[..k + 1][1..];
  }

  lemma {:induction false} LessIsTotal(a: string, b: string)
    ensures a == b || Less(a, b) || Less(b, a)
    ensures !(Less(a, b) && Less(b, a)) && !Less(a, a)
    decreases |a|
  {
    if a != "" && b != "" && a[0] == b[0] {
      LessIsTotal(a[1..], b[1..]);
      assert a == [a[0]] + a[1..] && b == [b[0]] + b[1..];
    }
    if a != "" { LessIsTotal(a[1..], a[1..]); }
  }

  lemma {:induction false} LessIsTransitive(a: string, b: string, c: string)
    requires !Less(b, a) && !Less(c, b)
    ensures !Less(c, a)
    decreases |a|
  {
    if c != "" && a != "" && b != "" && a[0] == b[0] && b[0] == c[0] {
      LessIsTransitive(a[1..], b[1..], c[1..]);
    }
  }

  /** Keys in order; equal keys may repeat. */
  predicate Sorted(entries: seq<Entry>) {
    forall i, j :: 0 <= i < j < |entries| ==> !Less(entries[j].key, entries[i].key)
  }

  // ------------------------------------------------------------------------------------------ emplace and erase

  /** The number of entries that an entry with this key goes behind. */
  function UpperBound(entries: seq<Entry>, key: string): (n: nat)
    ensures n <= |entries|
  {
    if entries == [] || Less(key, entries[0].key) then 0 else 1 + UpperBound(entries[1..], key)
  }

  function Emplace(entries: seq<Entry>, e: Entry): seq<Entry> {
    var n := UpperBound(entries, e.key);
    entries[..n] + [e] + entries[n..]
  }

  lemma {:induction false} UpperBoundFacts(entries: seq<Entry>, key: string)
    requires Sorted(entries)
    ensures var n := UpperBound(entries, key);
            (forall i :: 0 <= i < n ==> !Less(key, entries[i].key)) &&
            (forall i :: n <= i < |entries| ==> Less(key, entries[i].key))
    decreases |entries|
  {
    if entries != [] {
      if Less(key, entries[0].key) {
        forall i | 0 <= i < |entries| ensures Less(key, entries[i].key) {
          if i > 0 && !Less(key, entries[i].key) {
            LessIsTransitive(entries[0].key, entries[i].key, key);
          }
        }
      } else {
        UpperBoundFacts(entries[1..], key);
        assert forall i :: 1 <= i < |entries| ==> entries[i] == entries[1..][i - 1];
      }
    }
  }

  lemma EmplaceKeepsSorted(entries: seq<Entry>, e: Entry)
    requires Sorted(entries)
    ensures Sorted(Emplace(entries, e))
  {
    hide Less, UpperBound;
    var n := UpperBound(entries, e.key);
    UpperBoundFacts(entries, e.key);
    var r := Emplace(entries, e);
    forall i, j | 0 <= i < j < |r| ensures !Less(r[j].key, r[i].key) {
      if i == n {
        LessIsTotal(e.key, r[j].key);
      }
      assert i < n ==> r[i] == entries[i];
      assert i > n ==> r[i] == entries[i - 1];
      assert j < n ==> r[j] == entries[j];
      assert j > n ==> r[j] == entries[j - 1];
    }
  }

  /** Under its key an emplaced entry is the last, under the others nothing changes. */
  lemma EmplaceAddsLast(entries: seq<Entry>, e: Entry, key: string)
    requires Sorted(entries)
    ensures Lookup(Emplace(entries, e), key) ==
            if key == e.key then Lookup(entries, key) + [e.values] else Lookup(entries, key)
  {
    hide Less, UpperBound, Lookup;
    var n := UpperBound(entries, e.key);
    var (front, back) := (entries[..n], entries[n..]);
    UpperBoundFacts(entries, e.key);
    assert entries == front + back;
    LookupSplit(front, back, key);
    LookupSplit(front + [e], back, key);
    LookupSplit(front, [e], key);
    LookupOne(e, key);
    if key == e.key {
      LookupNothing(back, key);
    }
  }

  lemma EmplaceAddsOne(entries: seq<Entry>, e: Entry)
    ensures multiset(Emplace(entries, e)) == multiset(entries) + multiset{e}
  {
    hide UpperBound;
    assert entries == entries[..UpperBound(entries, e.key)] + entries[UpperBound(entries, e.key)..];
  }

  lemma LookupOne(e: Entry, key: string)
    ensures Lookup([e], key) == if key == e.key then [e.values] else []
  {
    assert [e][1..] == [];
  }

  /** The values stored under a key, in the order in which they were added. */
  function Lookup(entries: seq<Entry>, key: string): seq<seq<Val>> {
    if entries == [] then []
    else (if entries[0].key == key then [entries[0].values] else []) + Lookup(entries[1..], key)
  }

  lemma {:induction false} LookupSplit(a: seq<Entry>, b: seq<Entry>, key: string)
    ensures Lookup(a + b, key) == Lookup(a, key) + Lookup(b, key)
    decreases |a|
  {
    if a == [] {
      assert a + b == b;
    } else {
      assert (a + b)[1..] == a[1..] + b;
      LookupSplit(a[1..], b, key);
    }
  }

  lemma {:induction false} LookupNothing(entries: seq<Entry>, key: string)
    requires forall i :: 0 <= i < |entries| ==> Less(key, entries[i].key)
    ensures Lookup(entries, key) == []
    decreases |entries|
  {
    if entries != [] {
      LessIsTotal(key, key);
      LookupNothing(entries[1..], key);
    }
  }

  /** Something is found under a key if and only if there is an entry with it. */
  lemma {:induction false} LookupFinds(entries: seq<Entry>, key: string)
    ensures Lookup(entries, key) != [] <==> exists e <- entries :: e.key == key
    decreases |entries|
  {
    if entries != [] {
      LookupFinds(entries[1..], key);
      assert entries == [entries[0]] + entries[1..];
    }
  }

  /** erase(key). */
  function Without(entries: seq<Entry>, key: string): seq<Entry> {
    if entries == [] then []
    else (if entries[0].key == key then [] else [entries[0]]) + Without(entries[1..], key)
  }

  lemma {:induction false} WithoutKeepsSorted(entries: seq<Entry>, key: string)
    requires Sorted(entries)
    ensures Sorted(Without(entries, key)) && forall e <- Without(entries, key) :: e in entries
    decreases |entries|
  {
    hide Less;
    if entries != [] {
      var (first, tail) := (entries[0], entries[1..]);
      var rest := Without(tail, key);
      WithoutKeepsSorted(tail, key);
      assert entries == [first] + tail;
      assert Without(entries, key) == if first.key == key then rest else [first] + rest;
      forall i | 0 <= i < |rest| ensures !Less(rest[i].key, first.key) && rest[i] in tail {
        assert rest[i] in tail;
      }
    }
  }

  lemma {:induction false} WithoutErases(entries: seq<Entry>, key: string, other: string)
    ensures Lookup(Without(entries, key), other) == if other == key then [] else Lookup(entries, other)
    decreases |entries|
  {
    if entries != [] {
      var (first, rest) := (entries[0], Without(entries[1..], key));
      WithoutErases(entries[1..], key, other);
      if first.key == key {
        assert Without(entries, key) == rest;
      } else {
        assert Without(entries, key) == [first] + rest;
        LookupSplit([first], rest, other);
        LookupOne(first, other);
      }
    }
  }

  // ------------------------------------------------------------------------------------------ filter

  /** The entries whose key starts with the prefix, in order. */
  function Matching(entries: seq<Entry>, prefix: string): seq<Entry> {
    if entries == [] then []
    else (if prefix <= entries[0].key then [entries[0]] else []) + Matching(entries[1..], prefix)
  }

  predicate StartsWith(key: string, prefix: string) {
    |prefix| <= |key| && forall i :: 0 <= i < |prefix| ==> key[i] == prefix[i]
  }

  lemma {:induction false} MatchingSplits(a: seq<Entry>, b: seq<Entry>, prefix: string)
    ensures Matching(a + b, prefix) == Matching(a, prefix) + Matching(b, prefix)
    decreases |a|
  {
    if a == [] {
      assert a + b == b;
    } else {
      MatchingSplits(a[1..], b, prefix);
      assert (a + b)[1..] == a[1..] + b;
      assert Matching(a + b, prefix) == (if prefix <= a[0].key then [a[0]] else []) + Matching(a[1..] + b, prefix);
    }
  }

  /** What a filter takes of two stretches is what it takes of each, and of one entry it takes that if its key starts
      with the prefix. */
  lemma MatchingTakesStarts(a: seq<Entry>, b: seq<Entry>, e: Entry, prefix: string)
    ensures Matching(a + b, prefix) == Matching(a, prefix) + Matching(b, prefix)
    ensures Matching([e], prefix) == if StartsWith(e.key, prefix) then [e] else []
  {
    MatchingSplits(a, b, prefix);
    assert [e][1..] == [];
    assert StartsWith(e.key, prefix) <==> prefix <= e.key;
  }

  /** A filter keeps the order. */
  lemma {:induction false} MatchingKeepsSorted(entries: seq<Entry>, prefix: string)
    requires Sorted(entries)
    ensures Sorted(Matching(entries, prefix)) && forall e <- Matching(entries, prefix) :: e in entries
    decreases |entries|
  {
    hide Less;
    if entries != [] {
      var (first, rest) := (entries[0], Matching(entries[1..], prefix));
      MatchingKeepsSorted(entries[1..], prefix);
      forall i | 0 <= i < |rest| ensures !Less(rest[i].key, first.key) {
        assert rest[i] in entries[1..];
      }
    }
  }

  /** Of two keys that a filter visits, the one visited first is not behind the other in the dictionary. */
  lemma VisitedAscend(entries: seq<Entry>, prefix: string, i: nat, j: nat, k: nat)
    requires Sorted(entries) && i < j < |Matching(entries, prefix)|
    ensures !SmallerAt(Matching(entries, prefix)[j].key, Matching(entries, prefix)[i].key, k)
  {
    MatchingKeepsSorted(entries, prefix);
    LessIsLexicographic(Matching(entries, prefix)[j].key, Matching(entries, prefix)[i].key);
  }

  /** lower_bound(prefix): the first position whose key is not below the prefix. */
  function LowerBound(entries: seq<Entry>, prefix: string): (n: nat)
    ensures n <= |entries|
  {
    if entries == [] || !Less(entries[0].key, prefix) then 0 else 1 + LowerBound(entries[1..], prefix)
  }

  lemma {:induction false} PrefixIsNotGreater(prefix: string, key: string)
    requires prefix <= key
    ensures !Less(key, prefix)
    decreases |prefix|
  {
    if prefix != "" && key[0] == prefix[0] {
      PrefixIsNotGreater(prefix[1..], key[1..]);
    }
  }

  /** Starting at the lower bound skips no match. */
  lemma {:induction false} LowerBoundSkipsNothing(entries: seq<Entry>, prefix: string)
    ensures Matching(entries[LowerBound(entries, prefix)..], prefix) == Matching(entries, prefix)
    decreases |entries|
  {
    if entries != [] && Less(entries[0].key, prefix) {
      LowerBoundSkipsNothing(entries[1..], prefix);
      if prefix <= entries[0].key {
        PrefixIsNotGreater(prefix, entries[0].key);
      }
      assert entries[1..][LowerBound(entries[1..], prefix)..] == entries[LowerBound(entries, prefix)..];
    }
  }

  /** Gameexe::FilterRange::iterator. */
  class FilterIterator {
    const entries: seq<Entry>
    const prefix: string
    var current: nat

    /** Everything that is still to come. */
    function Remaining(): seq<Entry>
      requires Valid()
      reads this
    {
      Matching(entries[current..], prefix)
    }

    predicate Valid()
      reads this
    {
      current <= |entries| && (current < |entries| ==> prefix <= entries[current].key)
    }

    constructor (entries: seq<Entry>, start: nat, prefix: string)
      requires start <= |entries|
      ensures this.entries == entries && this.prefix == prefix && Valid()
      ensures Remaining() == Matching(entries[start..], prefix)
    {
      this.entries := entries;
      this.prefix := prefix;
      current := start;
      new;
      AdvanceToMatch();
    }

    method AdvanceToMatch()
      requires current <= |entries|
      modifies this
      ensures Valid() && old(current) <= current
      ensures Remaining() == Matching(entries[old(current)..], prefix)
    {
      while current != |entries| && !(prefix <= entries[current].key)
        invariant old(current) <= current <= |entries|
        invariant Matching(entries[current..], prefix) == Matching(entries[old(current)..], prefix)
      {
        assert entries[current..][1..] == entries[current + 1..];
        current := current + 1;
      }
    }

    /** operator*, in front of the end. */
    function Get(): Entry
      requires Valid() && current < |entries|
      reads this
    {
      entries[current]
    }

    /** operator++. */
    method Next()
      requires Valid()
      modifies this
      ensures Valid()
      ensures old(current) < |entries| ==>
                current > old(current) && old(Remaining()) == [old(entries[current])] + Remaining()
      ensures old(current) == |entries| ==> current == |entries| && Remaining() == []
    {
      if current != |entries| {
        assert entries[current..][1..] == entries[current + 1..];
        current := current + 1;
      }
      AdvanceToMatch();
    }
  }

  /** Walking a filter range from begin to end visits exactly the entries whose key starts with the prefix, in order,
      each once. */
  method Filter(entries: seq<Entry>, prefix: string) returns (visited: seq<Entry>)
    ensures visited == Matching(entries, prefix)
  {
    hide Matching, LowerBound;
    var it := new FilterIterator(entries, LowerBound(entries, prefix), prefix);
    LowerBoundSkipsNothing(entries, prefix);
    visited := [];
    assert visited + it.Remaining() == it.Remaining();
    while it.current != |entries|
      invariant fresh(it) && it.entries == entries && it.prefix == prefix && it.Valid()
      invariant visited + it.Remaining() == Matching(entries, prefix)
      decreases |entries| - it.current
    {
      var e := it.Get();
      it.Next();
      Assoc(visited, [e], it.Remaining());
      visited := visited + [e];
    }
    NoneMatches(entries[it.current..], prefix);
    assert visited + [] == visited;
  }

  lemma NoneMatches(entries: seq<Entry>, prefix: string)
    requires entries == []
    ensures Matching(entries, prefix) == []
  {
  }

  // ------------------------------------------------------------------------------------------ key parts

  predicate NoDot(s: string) {
    forall i :: 0 <= i < |s| ==> s[i] != '.'
  }

  function Join(parts: seq<string>): string
    requires parts != []
  {
    if |parts| == 1 then parts[0] else parts[0] + "." + Join(parts[1..])
  }

  lemma {:induction false} JoinAppend(parts: seq<string>, last: string)
    requires parts != []
    ensures Join(parts + [last]) == Join(parts) + "." + last
    decreases |parts|
  {
    if |parts| == 1 {
      assert (parts + [last])[1..] == [last];
    } else {
      assert (parts + [last])[1..] == parts[1..] + [last];
      JoinAppend(parts[1..], last);
      assert parts[0] + "." + (Join(parts[1..]) + "." + last) == parts[0] + "." + Join(parts[1..]) + "." + last;
    }
  }

  method FindDot(key: string, start: nat) returns (pos: Option<nat>)
    requires start <= |key|
    ensures pos.None? ==> forall k :: start <= k < |key| ==> key[k] != '.'
    ensures pos.Some? ==> start <= pos.value < |key| && key[pos.value] == '.'
    ensures pos.Some? ==> forall k :: start <= k < pos.value ==> key[k] != '.'
  {
    for i := start to |key|
      invariant forall k :: start <= k < i ==> key[k] != '.'
    {
      if key[i] == '.' {
        return Some(i);
      }
    }
    pos := None;
  }

  lemma PartHasNoDot(key: string, start: nat, end: nat)
    requires start <= end <= |key| && forall k :: start <= k < end ==> key[k] != '.'
    ensures NoDot(key[start..end])
  {
  }

  predicate NoDots(parts: seq<string>) {
    forall i :: 0 <= i < |parts| ==> NoDot(parts[i])
  }

  /** One part more, and what is in front of it. */
  lemma PartAdded(parts: seq<string>, key: string, start: nat, end: nat)
    requires start <= end <= |key| && NoDots(parts) && forall k :: start <= k < end ==> key[k] != '.'
    requires if parts == [] then start == 0 else Join(parts) + "." == key[..start]
    ensures NoDots(parts + [key[start..end]]) && Join(parts + [key[start..end]]) == key[..end]
    ensures end < |key| && key[end] == '.' ==> Join(parts + [key[start..end]]) + "." == key[..end + 1]
  {
    hide NoDot, Join;
    var part := key[start..end];
    PartHasNoDot(key, start, end);
    assert key[..end] == key[..start] + part;
    if parts == [] {
      JoinOne(part);
      assert [] + [part] == [part] && key[..start] + part == part;
    } else {
      JoinAppend(parts, part);
    }
  }

  lemma JoinOne(part: string)
    ensures Join([part]) == part
  {
  }

  /** Splitting at the dots: the parts hold none, and joined by dots they are the key again. */
  method GetKeyParts(key: string) returns (parts: seq<string>)
    ensures parts != [] && Join(parts) == key && forall i :: 0 <= i < |parts| ==> NoDot(parts[i])
  {
    hide Join, NoDot;
    parts := [];
    var start := 0;
    while start <= |key|
      invariant start <= |key| && NoDots(parts)
      invariant if parts == [] then start == 0 else Join(parts) + "." == key[..start]
      decreases |key| - start
    {
      var pos := FindDot(key, start);
      if pos.None? {
        PartAdded(parts, key, start, |key|);
        assert key[start..|key|] == key[start..] && key[..|key|] == key;
        parts := parts + [key[start..]];
        break;
      }
      PartAdded(parts, key, start, pos.value);
      parts := parts + [key[start..pos.value]];
      start := pos.value + 1;
    }
  }

  /** The length of the part in front of the first dot. */
  function FirstPart(s: string): nat {
    if s == "" || s[0] == '.' then 0 else 1 + FirstPart(s[1..])
  }

  lemma {:induction false} FirstPartOf(x: string, rest: string)
    requires NoDot(x) && (rest == "" || rest[0] == '.')
    ensures FirstPart(x + rest) == |x|
    decreases |x|
  {
    if x == "" {
      assert x + rest == rest;
    } else {
      assert (x + rest)[1..] == x[1..] + rest;
      FirstPartOf(x[1..], rest);
    }
  }

  lemma JoinSplits(parts: seq<string>)
    requires parts != [] && forall i :: 0 <= i < |parts| ==> NoDot(parts[i])
    ensures var s := Join(parts);
            FirstPart(s) == |parts[0]| <= |s| && s[..|parts[0]|] == parts[0] &&
            (|parts| == 1 <==> |parts[0]| == |s|) && (|parts| > 1 ==> s[|parts[0]| + 1..] == Join(parts[1..]))
  {
    if |parts| == 1 {
      FirstPartOf(parts[0], "");
      assert parts[0] + "" == parts[0];
    } else {
      FirstPartOf(parts[0], "." + Join(parts[1..]));
      assert Join(parts) == parts[0] + ("." + Join(parts[1..]));
    }
  }

  /** Only one list of dotless parts joins to a key. */
  lemma {:induction false} JoinIsInjective(a: seq<string>, b: seq<string>)
    requires a != [] && b != [] && Join(a) == Join(b)
    requires forall i :: 0 <= i < |a| ==> NoDot(a[i])
    requires forall i :: 0 <= i < |b| ==> NoDot(b[i])
    ensures a == b
    decreases |a|
  {
    hide Join, FirstPart, NoDot;
    JoinSplits(a);
    JoinSplits(b);
    if |a| > 1 {
      JoinIsInjective(a[1..], b[1..]);
      assert a == [a[0]] + a[1..] && b == [b[0]] + b[1..];
    }
  }
}
