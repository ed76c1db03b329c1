/**
 * Staged entries `{ file, valid, error, url }` and the pure functions over
 * the ordered list of them that both front ends use: building the entries
 * of a batch (App.js's `map`), splicing one out, the set of preview URLs the
 * list holds, and the count of valid entries (`filter(...).length`).
 */
module Entries {
  import opened Wrappers
  import opened Validation

  /** At most this many entries may be staged. */
  const MaxFiles: nat := 10

  /** An object URL, abstracted to the number of the `createObjectURL` call that made it. */
  type Url = nat

  datatype Entry = Entry(file: File, valid: bool, error: Option<FileError>, url: Url)

  /** The entry's validity fields are what the validator says of its file. */
  predicate WellFormed(e: Entry)
  {
    ValidateFile(e.file) == Verdict(e.valid, e.error)
  }

  /** The entry made for file `f` with preview URL `url`. */
  function MakeEntry(f: File, url: Url): (e: Entry)
    ensures e.file == f && e.url == url && WellFormed(e)
  {
    var v := ValidateFile(f);
    Entry(f, v.valid, v.error, url)
  }

  /**
   * The entries made for a batch whose preview URLs are issued in order
   * starting at `first` (App.js's `newFiles.map`): one entry per file,
   * invalid files included.
   */
  function Processed(batch: seq<File>, first: Url): (r: seq<Entry>)
    ensures |r| == |batch|
  {
    if batch == [] then []
    else [MakeEntry(batch[0], first)] + Processed(batch[1..], first + 1)
  }

  /** Entry `k` of a processed batch is file `k`'s entry with the `k`-th URL issued. */
  lemma {:induction false} ProcessedAt(batch: seq<File>, first: Url, k: nat)
    requires k < |batch|
    ensures Processed(batch, first)[k] == MakeEntry(batch[k], first + k)
    ensures WellFormed(Processed(batch, first)[k]) && Processed(batch, first)[k].file == batch[k]
  {
    if k > 0 {
      ProcessedAt(batch[1..], first + 1, k - 1);
    }
  }

  /** Processing one more file appends exactly its entry. */
  lemma {:induction false} ProcessedSnoc(batch: seq<File>, first: Url, f: File)
    ensures Processed(batch + [f], first) == Processed(batch, first) + [MakeEntry(f, first + |batch|)]
  {
    if batch != [] {
      var head, last := [MakeEntry(batch[0], first)], [MakeEntry(f, first + |batch|)];
      assert (batch + [f])[0] == batch[0];
      assert (batch + [f])[1..] == batch[1..] + [f];
      ProcessedSnoc(batch[1..], first + 1, f);
      var tail := Processed(batch[1..], first + 1);
      assert Processed(batch + [f], first) == head + (tail + last);
      assert Processed(batch, first) == head + tail;
      assert head + (tail + last) == (head + tail) + last;
    } else {
      assert batch + [f] == [f];
    }
  }

  /** Appending the entry of file `k` to the entries of `batch[..k]` gives those of `batch[..k + 1]`. */
  lemma ProcessedStep(prefix: seq<Entry>, batch: seq<File>, first: Url, k: nat)
    requires k < |batch|
    ensures prefix + Processed(batch[..k], first) + [MakeEntry(batch[k], first + k)]
            == prefix + Processed(batch[..k + 1], first)
  {
    assert batch[..k + 1] == batch[..k] + [batch[k]];
    ProcessedSnoc(batch[..k], first, batch[k]);
  }

  /** `splice(i, 1)`: the entry at `i` leaves, later ones shift down by one. */
  function Splice<T>(s: seq<T>, i: nat): (r: seq<T>)
    requires i < |s|
    ensures |r| == |s| - 1
    ensures forall j :: 0 <= j < i ==> r[j] == s[j]
    ensures forall j :: i <= j < |r| ==> r[j] == s[j + 1]
  {
    s[..i] + s[i + 1..]
  }

  /** The set of preview URLs held by a list of entries. */
  function UrlsOf(s: seq<Entry>): set<Url>
  {
    set i | 0 <= i < |s| :: s[i].url
  }

  /** No two entries share a preview URL. */
  predicate DistinctUrls(s: seq<Entry>)
  {
    forall i, j :: 0 <= i < j < |s| ==> s[i].url != s[j].url
  }

  /** The URLs `lo`, ..., `hi - 1`. */
  function Range(lo: nat, hi: nat): (r: set<Url>)
    ensures forall u :: u in r <==> lo <= u < hi
    decreases hi - lo
  {
    if lo >= hi then {} else {lo} + Range(lo + 1, hi)
  }

  lemma UrlsOfSingleton(e: Entry)
    ensures UrlsOf([e]) == {e.url}
  {
    assert [e][0] == e;
  }

  lemma UrlsOfAppend(a: seq<Entry>, b: seq<Entry>)
    ensures UrlsOf(a + b) == UrlsOf(a) + UrlsOf(b)
  {
    forall u | u in UrlsOf(a + b) ensures u in UrlsOf(a) + UrlsOf(b) {
      var i :| 0 <= i < |a + b| && (a + b)[i].url == u;
      if i < |a| {
        assert a[i] == (a + b)[i];
      } else {
        assert b[i - |a|] == (a + b)[i];
      }
    }
    forall u | u in UrlsOf(a) + UrlsOf(b) ensures u in UrlsOf(a + b) {
      if u in UrlsOf(a) {
        var i :| 0 <= i < |a| && a[i].url == u;
        assert (a + b)[i] == a[i];
      } else {
        var i :| 0 <= i < |b| && b[i].url == u;
        assert (a + b)[|a| + i] == b[i];
      }
    }
  }

  /** Entries `0..i-1`, entry `i` and the rest hold disjoint URLs when all are distinct. */
  lemma UrlsOfSplit(s: seq<Entry>, i: nat)
    requires i < |s| && DistinctUrls(s)
    ensures UrlsOf(s[i..]) == {s[i].url} + UrlsOf(s[i + 1..])
    ensures UrlsOf(s[..i + 1]) == UrlsOf(s[..i]) + {s[i].url}
    ensures s[i].url !in UrlsOf(s[..i]) + UrlsOf(s[i + 1..])
  {
    assert s[i..] == [s[i]] + s[i + 1..];
    UrlsOfAppend([s[i]], s[i + 1..]);
    assert s[..i + 1] == s[..i] + [s[i]];
    UrlsOfAppend(s[..i], [s[i]]);
    UrlsOfSingleton(s[i]);
    var before, after := s[..i], s[i + 1..];
    forall u | u in UrlsOf(before) ensures u != s[i].url {
      var j :| 0 <= j < i && before[j].url == u;
      assert before[j] == s[j];
    }
    forall u | u in UrlsOf(after) ensures u != s[i].url {
      var j :| 0 <= j < |s| - i - 1 && after[j].url == u;
      assert after[j] == s[i + 1 + j];
    }
  }

  /** Appending an entry with a URL not yet held keeps URLs distinct and adds that URL. */
  lemma UrlsOfSnoc(s: seq<Entry>, e: Entry)
    requires DistinctUrls(s) && e.url !in UrlsOf(s)
    ensures DistinctUrls(s + [e])
    ensures UrlsOf(s + [e]) == UrlsOf(s) + {e.url}
  {
    UrlsOfAppend(s, [e]);
    UrlsOfSingleton(e);
    forall i, j | 0 <= i < j < |s + [e]| ensures (s + [e])[i].url != (s + [e])[j].url {
      assert (s + [e])[i] == s[i];
      if j == |s| {
        assert s[i].url in UrlsOf(s);
      } else {
        assert (s + [e])[j] == s[j];
      }
    }
  }

  /** Splicing out entry `i` drops exactly its URL and keeps the rest distinct. */
  lemma UrlsOfSplice(s: seq<Entry>, i: nat)
    requires i < |s| && DistinctUrls(s)
    ensures DistinctUrls(Splice(s, i))
    ensures UrlsOf(Splice(s, i)) == UrlsOf(s) - {s[i].url}
  {
    UrlsOfSplit(s, i);
    UrlsOfAppend(s[..i], s[i + 1..]);
    assert s[..i] + s[i..] == s;
    UrlsOfAppend(s[..i], s[i..]);
    var r := Splice(s, i);
    forall a, b | 0 <= a < b < |r| ensures r[a].url != r[b].url {
      var a' := if a < i then a else a + 1;
      var b' := if b < i then b else b + 1;
      assert r[a] == s[a'] && r[b] == s[b'];
    }
  }

  /** Overwriting entry `i` with an entry holding a URL not yet held swaps one URL for the other. */
  lemma UrlsOfUpdate(s: seq<Entry>, i: nat, e: Entry)
    requires i < |s| && DistinctUrls(s) && e.url !in UrlsOf(s)
    ensures DistinctUrls(s[i := e])
    ensures UrlsOf(s[i := e]) == UrlsOf(s) - {s[i].url} + {e.url}
  {
    var r := s[i := e];
    UrlsOfSplit(s, i);
    assert s[..i] + s[i..] == s;
    UrlsOfAppend(s[..i], s[i..]);
    assert r == s[..i] + [e] + s[i + 1..];
    UrlsOfAppend(s[..i] + [e], s[i + 1..]);
    UrlsOfAppend(s[..i], [e]);
    UrlsOfSingleton(e);
    forall a, b | 0 <= a < b < |r| ensures r[a].url != r[b].url {
      if a == i {
        assert s[b].url in UrlsOf(s);
      } else if b == i {
        assert s[a].url in UrlsOf(s);
      }
    }
  }

  /** The entries of a batch hold exactly the URLs issued for it, all distinct. */
  lemma ProcessedUrls(batch: seq<File>, first: Url)
    ensures DistinctUrls(Processed(batch, first))
    ensures UrlsOf(Processed(batch, first)) == Range(first, first + |batch|)
  {
    var r := Processed(batch, first);
    forall k | 0 <= k < |r| ensures r[k].url == first + k {
      ProcessedAt(batch, first, k);
    }
    forall u | u in Range(first, first + |batch|) ensures u in UrlsOf(r) {
      assert r[u - first].url == u;
    }
  }

  /** Appending a batch's entries adds exactly the URLs issued for the batch. */
  lemma AppendProcessedUrls(prefix: seq<Entry>, batch: seq<File>, first: Url)
    ensures UrlsOf(prefix + Processed(batch, first)) == UrlsOf(prefix) + Range(first, first + |batch|)
  {
    UrlsOfAppend(prefix, Processed(batch, first));
    ProcessedUrls(batch, first);
  }

  /** 1 for a valid entry, 0 otherwise. */
  function ValidBit(e: Entry): nat
  {
    if e.valid then 1 else 0
  }

  /** `filter(item => item.valid).length`. */
  function CountValid(s: seq<Entry>): (n: nat)
    ensures n <= |s|
  {
    if s == [] then 0 else ValidBit(s[0]) + CountValid(s[1..])
  }

  lemma {:induction false} CountValidAppend(a: seq<Entry>, b: seq<Entry>)
    ensures CountValid(a + b) == CountValid(a) + CountValid(b)
  {
    if a == [] {
      assert a + b == b;
    } else {
      assert (a + b)[1..] == a[1..] + b;
      CountValidAppend(a[1..], b);
    }
  }

  /** The count is zero exactly when no entry is valid. */
  lemma {:induction false} CountValidZeroIff(s: seq<Entry>)
    ensures CountValid(s) == 0 <==> forall i :: 0 <= i < |s| ==> !s[i].valid
  {
    if s != [] {
      CountValidZeroIff(s[1..]);
      assert forall i :: 1 <= i < |s| ==> s[i] == s[1..][i - 1];
    }
  }

  /** Splicing out entry `i` lowers the count by that entry's validity. */
  lemma CountValidSplice(s: seq<Entry>, i: nat)
    requires i < |s|
    ensures CountValid(Splice(s, i)) == CountValid(s) - ValidBit(s[i])
  {
    var before, rest, after := s[..i], s[i..], s[i + 1..];
    assert s == before + rest;
    CountValidAppend(before, rest);
    assert rest[1..] == after;
    assert CountValid(rest) == ValidBit(s[i]) + CountValid(after);
    CountValidAppend(before, after);
  }

  /** Overwriting entry `i` replaces its contribution by the new entry's. */
  lemma CountValidUpdate(s: seq<Entry>, i: nat, e: Entry)
    requires i < |s|
    ensures CountValid(s[i := e]) == CountValid(s) - ValidBit(s[i]) + ValidBit(e)
  {
    assert s == s[..i] + ([s[i]] + s[i + 1..]);
    assert s[i := e] == s[..i] + ([e] + s[i + 1..]);
    CountValidAppend(s[..i], [s[i]] + s[i + 1..]);
    CountValidAppend([s[i]], s[i + 1..]);
    CountValidAppend(s[..i], [e] + s[i + 1..]);
    CountValidAppend([e], s[i + 1..]);
  }
}
