/** Looking a key up in a table file is searching its entries (db/table_cache.cc, db/version_set.cc, table/table.cc). */
module TableLookups {
  import opened Wrappers
  import opened ByteStrings
  import opened InternalKeys
  import opened ManifestVersions
  import B = Blocks
  import C = Comparators
  import Coding
  import T = Tables
  import V = Versions

  predicate HasKeys(es: seq<B.Entry>) {
    forall i :: 0 <= i < |es| ==> IsKey(es[i].key)
  }

  ghost function Ranked(e: B.Entry): Entry
    requires IsKey(e.key)
  {
    Entry(KeyOf(e.key), e.value)
  }

  /** The entries as reads and compactions see them. */
  ghost function AllRanked(es: seq<B.Entry>): (r: seq<Entry>)
    requires HasKeys(es)
    ensures |r| == |es| && forall i :: 0 <= i < |r| ==> r[i] == Ranked(es[i])
  {
    seq(|es|, i requires 0 <= i < |es| => Ranked(es[i]))
  }

  /** A table in the order of byte keys is sorted. */
  lemma TableIsSorted(es: seq<B.Entry>)
    requires HasKeys(es) && B.Increasing(es, T.LESS)
    ensures Sorted(AllRanked(es))
  {
    hide IsKey, C.KeyBefore;
    var r := AllRanked(es);
    forall i, j | 0 <= i < j < |r| ensures Less(r[i].key, r[j].key) {
      assert T.LESS(es[i].key, es[j].key);
      KeyOrderAgrees(es[i].key, es[j].key);
    }
  }

  /** The key that a reader at `s` seeks to, as bytes. */
  predicate IsLookup(k: Bytes, s: SequenceNumber) {
    IsKey(k) && C.TagPart(k) == s * 256 + 1
  }

  lemma LookupIsSeekKey(k: Bytes, s: SequenceNumber)
    requires IsLookup(k, s)
    ensures IsKey(k) && KeyOf(k) == SeekKey(C.Rank(C.UserPart(k)), s)
  {
  }

  lemma IsLowerBound(es: seq<Entry>, target: Key, p: nat)
    requires p <= |es| && forall j :: 0 <= j < |es| ==> (j < p <==> Less(es[j].key, target))
    ensures V.LowerBound(es, target) == p
  {
    var i := V.LowerBound(es, target);
    assert i < |es| ==> !Less(es[i].key, target);
    assert p < |es| ==> !Less(es[p].key, target);
  }

  /** Where the byte search ends is where the search by rank ends. */
  lemma SoughtIsLowerBound(es: seq<B.Entry>, k: Bytes, s: SequenceNumber, p: nat)
    requires HasKeys(es) && IsLookup(k, s) && T.IsSought(es, k, p)
    ensures V.LowerBound(AllRanked(es), SeekKey(C.Rank(C.UserPart(k)), s)) == p
  {
    hide IsKey, C.KeyBefore, C.Rank, V.LowerBound;
    LookupIsSeekKey(k, s);
    var r, target := AllRanked(es), KeyOf(k);
    forall j | 0 <= j < |es| ensures j < p <==> Less(r[j].key, target) {
      KeyOrderAgrees(es[j].key, k);
    }
    IsLowerBound(r, target, p);
  }

  lemma SameUser(a: Bytes, b: Bytes)
    requires IsKey(a)
    ensures KeyOf(a).user == C.Rank(C.UserPart(b)) <==> C.UserPart(a) == C.UserPart(b)
  {
    C.RankEmbedsCompare(C.UserPart(a), C.UserPart(b));
  }

  /** What InternalGet saves, once the caller has compared the user key, is what a search of the table's entries finds. */
  lemma GetIsSearch(es: seq<B.Entry>, k: Bytes, s: SequenceNumber, saved: Option<B.Entry>)
    requires HasKeys(es) && IsLookup(k, s) && exists p: nat :: T.IsSought(es, k, p)
    requires saved.Some? ==> exists p: nat :: T.IsSought(es, k, p) && p < |es| && es[p] == saved.value
    requires forall p: nat :: T.SoughtOfUser(es, k, p) ==> saved == Some(es[p])
    ensures saved.Some? ==> IsKey(saved.value.key)
    ensures V.SearchTable(AllRanked(es), C.Rank(C.UserPart(k)), s) ==
            if saved.Some? && C.UserPart(saved.value.key) == C.UserPart(k) then Some(Ranked(saved.value)) else None
  {
    hide IsKey, C.KeyBefore, C.Rank, V.LowerBound, IsLookup;
    var p: nat :| T.IsSought(es, k, p);
    SoughtIsLowerBound(es, k, s, p);
    if saved.Some? {
      var q: nat :| T.IsSought(es, k, q) && q < |es| && es[q] == saved.value;
      SoughtIsLowerBound(es, k, s, q);
    }
    if p < |es| {
      SameUser(es[p].key, k);
      if C.UserPart(es[p].key) == C.UserPart(k) {
        assert T.SoughtOfUser(es, k, p);
      }
    }
  }

  lemma SomethingIsSought(l: T.Layout, file: Bytes, name: Bytes, k: Bytes)
    requires T.IsTable(file, l, name)
    ensures exists p: nat :: T.IsSought(l.Entries(), k, p)
    ensures HasKeys(l.Entries()) ==> Sorted(AllRanked(l.Entries()))
  {
    var p := T.SoughtIn(l.Entries(), k);
    if HasKeys(l.Entries()) {
      TableIsSorted(l.Entries());
    }
  }

  /** A read of one table file, from its bytes. */
  method GetFromTable(table: T.Table, user: Bytes, s: SequenceNumber, verify: bool) returns (r: Option<B.Entry>)
    requires table.Valid() && (table.filter.Some? ==> T.FilterServes(table.layout, table.policy.value.hash))
    requires HasKeys(table.layout.Entries())
    ensures r.Some? ==> IsKey(r.value.key)
    ensures Sorted(AllRanked(table.layout.Entries()))
    ensures V.SearchTable(AllRanked(table.layout.Entries()), C.Rank(user), s) == if r.Some? then Some(Ranked(r.value)) else None
  {
    hide T.IsTable, IsKey, C.Rank, V.SearchTable;
    var k := LookupKey(user, s);
    var saved := table.InternalGet(k, verify);
    SomethingIsSought(table.layout, table.file, table.name, k);
    GetIsSearch(table.layout.Entries(), k, s, saved);
    r := if saved.Some? && C.UserPart(saved.value.key) == user then saved else None;
  }

  lemma LookupParts(user: Bytes, s: SequenceNumber)
    ensures var k := user + Coding.Fixed64(s * 256 + 1); C.UserPart(k) == user && C.TagPart(k) == s * 256 + 1
  {
    hide Coding.Fixed64, Coding.DecodeFixed64;
    Coding.Fixed64RoundTrip(s * 256 + 1);
    var tag := Coding.Fixed64(s * 256 + 1);
    assert (user + tag)[|user|..] == tag && (user + tag)[..|user|] == user;
  }

  /** A LookupKey's internal key. */
  function LookupKey(user: Bytes, s: SequenceNumber): (k: Bytes)
    ensures IsLookup(k, s) && C.UserPart(k) == user
  {
    hide Coding.Fixed64, C.TagPart, C.UserPart;
    LookupParts(user, s);
    user + Coding.Fixed64(s * 256 + 1)
  }
}
