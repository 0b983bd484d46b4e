/** `deduplicate`: keep the first contact row for each (Email(s), Phone(s))
    signature, in input order, dropping later rows with the same signature
    whatever their name, company or source URL. */
module Deduplicator {
  import opened Common
  import opened Records

  type Signature = (Option<string>, Option<string>)

  /** `(item['Email(s)'], item['Phone(s)'])` */
  function SignatureOf(r: ContactRecord): Signature
  {
    (r.emails, r.phones)
  }

  /** The signatures occurring in `s`. */
  function Signatures(s: seq<ContactRecord>): set<Signature>
  {
    set r | r in s :: SignatureOf(r)
  }

  /** The specification: the first-occurrence filter, stated over growing
      prefixes of the input (the order the loop reads it in). */
  function Dedup(s: seq<ContactRecord>): seq<ContactRecord>
  {
    if s == [] then []
    else
      var prefix := s[..|s| - 1];
      var last := s[|s| - 1];
      if SignatureOf(last) in Signatures(prefix) then Dedup(prefix) else Dedup(prefix) + [last]
  }

  /** Position `i` holds the first row with its signature. */
  ghost predicate IsFirst(s: seq<ContactRecord>, i: int)
    requires 0 <= i < |s|
  {
    forall j | 0 <= j < i :: SignatureOf(s[j]) != SignatureOf(s[i])
  }

  /** `idx` embeds `d` into `s` in increasing positions, each of them the
      first occurrence of its signature. */
  ghost predicate FirstOccurrenceEmbedding(idx: seq<int>, d: seq<ContactRecord>, s: seq<ContactRecord>)
  {
    && |idx| == |d|
    && (forall k | 0 <= k < |idx| :: 0 <= idx[k] < |s| && d[k] == s[idx[k]] && IsFirst(s, idx[k]))
    && (forall k, l | 0 <= k < l < |idx| :: idx[k] < idx[l])
  }

  lemma SignaturesSnoc(s: seq<ContactRecord>, r: ContactRecord)
    ensures Signatures(s + [r]) == Signatures(s) + {SignatureOf(r)}
  {
    assert forall x | x in s + [r] :: x in s || x == r;
  }

  /** Every signature of the input survives, and no other appears. */
  lemma {:induction false} DedupSignatures(s: seq<ContactRecord>)
    ensures Signatures(Dedup(s)) == Signatures(s)
  {
    if s != [] {
      var prefix, last := s[..|s| - 1], s[|s| - 1];
      assert s == prefix + [last];
      DedupSignatures(prefix);
      SignaturesSnoc(prefix, last);
      if SignatureOf(last) !in Signatures(prefix) {
        SignaturesSnoc(Dedup(prefix), last);
      }
    }
  }

  /** A first occurrence in a prefix is a first occurrence in the whole. */
  lemma IsFirstExtends(s: seq<ContactRecord>, n: nat, i: int)
    requires 0 <= i < n <= |s| && IsFirst(s[..n], i)
    ensures IsFirst(s, i)
  {
    forall j | 0 <= j < i ensures SignatureOf(s[j]) != SignatureOf(s[i]) {
      assert s[..n][j] == s[j] && s[..n][i] == s[i];
    }
  }

  /** An embedding into the input without its last row is one into the
      whole input. */
  lemma EmbeddingExtends(idx: seq<int>, d: seq<ContactRecord>, s: seq<ContactRecord>)
    requires s != [] && FirstOccurrenceEmbedding(idx, d, s[..|s| - 1])
    ensures FirstOccurrenceEmbedding(idx, d, s)
  {
    var prefix := s[..|s| - 1];
    forall k | 0 <= k < |idx| ensures 0 <= idx[k] < |s| && d[k] == s[idx[k]] && IsFirst(s, idx[k]) {
      assert prefix[idx[k]] == s[idx[k]];
      IsFirstExtends(s, |s| - 1, idx[k]);
    }
  }

  /** A last row whose signature the earlier rows lack is a first
      occurrence. */
  lemma NewSignatureIsFirst(s: seq<ContactRecord>)
    requires s != [] && SignatureOf(s[|s| - 1]) !in Signatures(s[..|s| - 1])
    ensures IsFirst(s, |s| - 1)
  {
    var prefix := s[..|s| - 1];
    forall j | 0 <= j < |s| - 1 ensures SignatureOf(s[j]) != SignatureOf(s[|s| - 1]) {
      assert s[j] == prefix[j] && prefix[j] in prefix;
    }
  }

  /** Appending the last row, when it is a first occurrence, extends the
      embedding by its position. */
  lemma EmbeddingSnoc(idx: seq<int>, d: seq<ContactRecord>, s: seq<ContactRecord>)
    requires s != [] && FirstOccurrenceEmbedding(idx, d, s) && IsFirst(s, |s| - 1)
    requires forall k | 0 <= k < |idx| :: idx[k] < |s| - 1
    ensures FirstOccurrenceEmbedding(idx + [|s| - 1], d + [s[|s| - 1]], s)
  {
    var idx', d' := idx + [|s| - 1], d + [s[|s| - 1]];
    forall k | 0 <= k < |idx'| ensures 0 <= idx'[k] < |s| && d'[k] == s[idx'[k]] && IsFirst(s, idx'[k]) {
      if k < |idx| {
        assert idx'[k] == idx[k] && d'[k] == d[k];
      }
    }
  }

  /** The output is a subsequence of the input made of exactly the first
      occurrences of their signatures. */
  lemma {:induction false} DedupIsFirstOccurrences(s: seq<ContactRecord>)
    ensures exists idx :: FirstOccurrenceEmbedding(idx, Dedup(s), s)
  {
    if s == [] {
      assert FirstOccurrenceEmbedding([], Dedup(s), s);
    } else {
      var prefix, last := s[..|s| - 1], s[|s| - 1];
      DedupIsFirstOccurrences(prefix);
      var idx :| FirstOccurrenceEmbedding(idx, Dedup(prefix), prefix);
      EmbeddingExtends(idx, Dedup(prefix), s);
      if SignatureOf(last) in Signatures(prefix) {
        assert Dedup(s) == Dedup(prefix);
      } else {
        assert Dedup(s) == Dedup(prefix) + [last];
        NewSignatureIsFirst(s);
        EmbeddingSnoc(idx, Dedup(prefix), s);
      }
    }
  }

  /** No two output rows share a signature. */
  lemma DedupDistinctSignatures(s: seq<ContactRecord>)
    ensures forall i, j | 0 <= i < j < |Dedup(s)| :: SignatureOf(Dedup(s)[i]) != SignatureOf(Dedup(s)[j])
  {
    DedupIsFirstOccurrences(s);
    var d := Dedup(s);
    var idx :| FirstOccurrenceEmbedding(idx, d, s);
    forall i, j | 0 <= i < j < |d| ensures SignatureOf(d[i]) != SignatureOf(d[j]) {
      assert IsFirst(s, idx[j]);
    }
  }

  /** Two rows exposing the same inbox and phone collapse into the first,
      whatever their names, companies or source URLs. */
  lemma SameSignatureCollapses(a: ContactRecord, b: ContactRecord)
    requires SignatureOf(a) == SignatureOf(b)
    ensures Dedup([a, b]) == [a]
  {
    var s := [a, b];
    assert s[..|s| - 1] == [a] && s[|s| - 1] == b;
    assert SignatureOf(b) in Signatures([a]) by { assert a in [a]; }
    assert Dedup(s) == Dedup([a]);
    assert [a][..0] == [];
    assert Signatures([]) == {};
    assert Dedup([a]) == Dedup([]) + [a];
  }

  /** The loop of `deduplicate`, with its `seen` set and `unique` list. */
  method Deduplicate(results: seq<ContactRecord>) returns (unique: seq<ContactRecord>)
    ensures unique == Dedup(results)
    ensures Signatures(unique) == Signatures(results)
    ensures forall i, j | 0 <= i < j < |unique| :: SignatureOf(unique[i]) != SignatureOf(unique[j])
    ensures exists idx :: FirstOccurrenceEmbedding(idx, unique, results)
  {
    var seen: set<Signature> := {};
    unique := [];
    for n := 0 to |results|
      invariant unique == Dedup(results[..n])
      invariant seen == Signatures(results[..n])
    {
      var item := results[n];
      var key := SignatureOf(item);
      assert results[..n + 1][..n] == results[..n];
      SignaturesSnoc(results[..n], item);
      assert results[..n + 1] == results[..n] + [item];
      if key !in seen {
        seen := seen + {key};
        unique := unique + [item];
      }
    }
    assert results[..|results|] == results;
    DedupSignatures(results);
    DedupDistinctSignatures(results);
    DedupIsFirstOccurrences(results);
  }
}
