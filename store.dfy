/**
 * The staged-file store: the ordered list of entries, the index awaiting a
 * replacement file, and the preview-URL lifecycle.  In script.js these are
 * the module-level `files` and `replaceIndex`; in src/App.js they are the
 * component's `files` and `replaceIndex` state.  `URL.createObjectURL` is
 * modelled by a counter that issues fresh URLs, and `URL.revokeObjectURL`
 * by moving a URL from the ghost set of live URLs to the ghost set of
 * revoked ones.
 */
module Store {
  import opened Validation
  import opened Entries

  /** Result of adding a batch: added, or refused because of the file limit. */
  datatype AddOutcome = Added | LimitExceeded

  /** What the list rendering derives from the entries besides markup. */
  datatype Summary = Summary(validCount: nat, submitDisabled: bool, submitVisible: bool)

  class FileStore {
    var files: seq<Entry>
    var replaceIndex: int
    /** The number of object URLs created so far; the next one created is `nextUrl`. */
    var nextUrl: nat
    /** URLs created and not yet revoked. */
    ghost var live: set<Url>
    /** URLs created and since revoked. */
    ghost var revoked: set<Url>
    /** Every URL created so far. */
    ghost var issued: set<Url>

    /**
     * The store's invariant: at most MaxFiles entries, each carrying the
     * validator's verdict on its file; every entry holds its own URL; the
     * live URLs are exactly those the entries hold; and every URL ever
     * created is either live or revoked, never both.
     */
    ghost predicate Valid()
      reads this
    {
      && |files| <= MaxFiles
      && -1 <= replaceIndex
      && (forall i :: 0 <= i < |files| ==> WellFormed(files[i]))
      && DistinctUrls(files)
      && live == UrlsOf(files)
      && live !! revoked
      && live + revoked == issued
      && (forall u :: u in issued ==> u < nextUrl)
    }

    /** The initial, empty store with no replacement pending. */
    constructor ()
      ensures Valid()
      ensures files == [] && replaceIndex == -1
      ensures nextUrl == 0 && live == {} && revoked == {} && issued == {}
    {
      files := [];
      replaceIndex := -1;
      nextUrl := 0;
      live := {};
      revoked := {};
      issued := {};
    }

    /** `URL.createObjectURL`: a URL never issued before becomes live. */
    method CreateObjectUrl() returns (url: Url)
      requires forall u :: u in issued ==> u < nextUrl
      modifies this
      ensures url == old(nextUrl) && url !in old(issued)
      ensures nextUrl == old(nextUrl) + 1
      ensures live == old(live) + {url} && revoked == old(revoked) && issued == old(issued) + {url}
      ensures forall u :: u in issued ==> u < nextUrl
      ensures files == old(files) && replaceIndex == old(replaceIndex)
    {
      url := nextUrl;
      nextUrl := nextUrl + 1;
      live := live + {url};
      issued := issued + {url};
    }

    /**
     * `URL.revokeObjectURL`.  The store revokes only live URLs, so within
     * the model no URL is revoked twice (module StaleButtons shows how
     * script.js as written can do so).
     */
    method RevokeObjectUrl(url: Url)
      requires url in live && live !! revoked
      modifies this
      ensures url !in old(revoked)
      ensures live == old(live) - {url} && revoked == old(revoked) + {url}
      ensures live !! revoked
      ensures files == old(files) && replaceIndex == old(replaceIndex)
      ensures nextUrl == old(nextUrl) && issued == old(issued)
    {
      live := live - {url};
      revoked := revoked + {url};
    }

    /**
     * The file-input change handler.  A batch that would take the list past
     * MaxFiles is refused and changes nothing (no URL is created); otherwise
     * every file of the batch, valid or not, is appended in order.
     */
    method AddFiles(batch: seq<File>) returns (outcome: AddOutcome)
      requires Valid()
      modifies this
      ensures Valid()
      ensures outcome == Added <==> |old(files)| + |batch| <= MaxFiles
      ensures outcome == Added ==>
                && files == old(files) + Processed(batch, old(nextUrl))
                && nextUrl == old(nextUrl) + |batch|
                && live == old(live) + Range(old(nextUrl), nextUrl)
      ensures outcome == LimitExceeded ==>
                files == old(files) && nextUrl == old(nextUrl) && live == old(live)
      ensures revoked == old(revoked) && replaceIndex == old(replaceIndex)
    {
      if |files| + |batch| > MaxFiles {
        return LimitExceeded;
      }
      PushAll(batch);
      outcome := Added;
    }

    /** The add loop: push one entry per file of the batch, in order. */
    method PushAll(batch: seq<File>)
      requires Valid() && |files| + |batch| <= MaxFiles
      modifies this
      ensures Valid()
      ensures files == old(files) + Processed(batch, old(nextUrl))
      ensures nextUrl == old(nextUrl) + |batch|
      ensures live == old(live) + Range(old(nextUrl), nextUrl)
      ensures revoked == old(revoked) && replaceIndex == old(replaceIndex)
    {
      ghost var first := nextUrl;
      var k := 0;
      while k < |batch|
        invariant 0 <= k <= |batch|
        invariant Valid()
        invariant files == old(files) + Processed(batch[..k], first)
        invariant nextUrl == first + k
        invariant revoked == old(revoked) && replaceIndex == old(replaceIndex)
      {
        Push(batch, k, old(files), first);
        k := k + 1;
      }
      assert batch[..k] == batch;
      AppendProcessedUrls(old(files), batch, first);
    }

    /**
     * One iteration of the add loop: validate file `k`, create its URL and
     * push its entry, which extends the entries of the batch's first `k`
     * files to those of its first `k + 1`.
     */
    method Push(batch: seq<File>, k: nat, ghost prefix: seq<Entry>, ghost first: Url)
      requires Valid() && k < |batch| && |files| < MaxFiles
      requires files == prefix + Processed(batch[..k], first) && nextUrl == first + k
      modifies this
      ensures Valid()
      ensures files == old(files) + [MakeEntry(batch[k], old(nextUrl))]
      ensures files == prefix + Processed(batch[..k + 1], first) && nextUrl == old(nextUrl) + 1
      ensures live == old(live) + {old(nextUrl)} && revoked == old(revoked)
      ensures replaceIndex == old(replaceIndex)
    {
      ProcessedStep(prefix, batch, first, k);
      var url := CreateObjectUrl();
      var entry := MakeEntry(batch[k], url);
      UrlsOfSnoc(files, entry);
      files := files + [entry];
    }

    /**
     * The replace button: remember which position the next chosen file
     * replaces.  The source records the index unconditionally, so it may
     * name a position the list no longer has (a button still on screen
     * after the list was emptied).
     */
    method TriggerReplace(index: nat)
      requires Valid()
      modifies this
      ensures Valid() && replaceIndex == index
      ensures files == old(files) && nextUrl == old(nextUrl)
      ensures live == old(live) && revoked == old(revoked)
    {
      replaceIndex := index;
    }

    /**
     * The replace-input change handler.  Without a pending index or without
     * a chosen file nothing happens.  A pending index the list no longer
     * has is discarded before any URL is created.  Otherwise a URL is
     * created for the first chosen file, the old entry's URL is revoked, the
     * slot is overwritten with the new file's entry, and the pending index
     * is cleared.
     */
    method ReplaceChange(chosen: seq<File>)
      requires Valid()
      modifies this
      ensures Valid()
      ensures old(replaceIndex) == -1 || |chosen| == 0 ==>
                && files == old(files) && replaceIndex == old(replaceIndex)
                && nextUrl == old(nextUrl) && live == old(live) && revoked == old(revoked)
      ensures old(replaceIndex) != -1 && |chosen| > 0 && old(replaceIndex) >= |old(files)| ==>
                && files == old(files) && replaceIndex == -1
                && nextUrl == old(nextUrl) && live == old(live) && revoked == old(revoked)
      ensures old(replaceIndex) != -1 && |chosen| > 0 && old(replaceIndex) < |old(files)| ==>
                && files == old(files)[old(replaceIndex) := MakeEntry(chosen[0], old(nextUrl))]
                && |files| == |old(files)|
                && (forall j :: 0 <= j < |files| && j != old(replaceIndex) ==> files[j] == old(files)[j])
                && files[old(replaceIndex)].file == chosen[0]
                && nextUrl == old(nextUrl) + 1
                && old(files)[old(replaceIndex)].url !in old(revoked)
                && live == old(live) - {old(files)[old(replaceIndex)].url} + {old(nextUrl)}
                && revoked == old(revoked) + {old(files)[old(replaceIndex)].url}
                && replaceIndex == -1
    {
      if replaceIndex == -1 || |chosen| == 0 {
        return;
      }
      if replaceIndex >= |files| {
        replaceIndex := -1;
        return;
      }
      var newFile := chosen[0];
      var url := CreateObjectUrl();
      var entry := MakeEntry(newFile, url);
      UrlsOfUpdate(files, replaceIndex, entry);
      RevokeObjectUrl(files[replaceIndex].url);
      files := files[replaceIndex := entry];
      replaceIndex := -1;
    }

    /**
     * The remove button for position `index`: revoke the URL of the entry
     * now at that position and splice it out.  A position the list no
     * longer has changes nothing, and in particular revokes nothing.
     */
    method RemoveAt(index: nat)
      requires Valid()
      modifies this
      ensures Valid()
      ensures index >= |old(files)| ==>
                files == old(files) && live == old(live) && revoked == old(revoked)
      ensures index < |old(files)| ==>
                && files == Splice(old(files), index)
                && old(files)[index].url !in old(revoked)
                && live == old(live) - {old(files)[index].url}
                && revoked == old(revoked) + {old(files)[index].url}
      ensures nextUrl == old(nextUrl) && replaceIndex == old(replaceIndex)
    {
      if index >= |files| {
        return;
      }
      UrlsOfSplice(files, index);
      RevokeObjectUrl(files[index].url);
      files := Splice(files, index);
    }

    /**
     * The submit handler: report how many entries are valid, revoke every
     * entry's URL and empty the list.
     */
    method Submit() returns (count: nat)
      requires Valid()
      modifies this
      ensures Valid()
      ensures count == CountValid(old(files))
      ensures files == [] && live == {} && revoked == old(revoked) + old(live)
      ensures nextUrl == old(nextUrl) && replaceIndex == old(replaceIndex)
    {
      count := CountValid(files);
      var i := 0;
      while i < |files|
        invariant 0 <= i <= |files|
        invariant files == old(files) && nextUrl == old(nextUrl) && replaceIndex == old(replaceIndex)
        invariant live == UrlsOf(files[i..])
        invariant revoked == old(revoked) + UrlsOf(files[..i])
        invariant live !! revoked && live + revoked == issued
      {
        UrlsOfSplit(files, i);
        RevokeObjectUrl(files[i].url);
        i := i + 1;
      }
      assert files[..i] == files;
      files := [];
    }

    /**
     * The non-markup part of rendering the list: the valid count (counted
     * entry by entry), whether submitting is disabled and whether the
     * submit section is shown.
     */
    method RenderSummary() returns (s: Summary)
      ensures s.validCount == CountValid(files)
      ensures s.submitDisabled <==> forall i :: 0 <= i < |files| ==> !files[i].valid
      ensures s.submitVisible <==> |files| > 0
    {
      var validCount := 0;
      for i := 0 to |files|
        invariant validCount == CountValid(files[..i])
      {
        assert files[..i + 1] == files[..i] + [files[i]];
        CountValidAppend(files[..i], [files[i]]);
        if files[i].valid {
          validCount := validCount + 1;
        }
      }
      assert files[..|files|] == files;
      CountValidZeroIff(files);
      s := Summary(validCount, validCount == 0, |files| > 0);
    }
  }
}
