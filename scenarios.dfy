/**
 * Client-side uses of the store that follow a user's actions from the empty
 * store; what they promise follows from the operations' contracts alone.
 */
module Scenarios {
  import opened Validation
  import opened Entries
  import opened Store

  /**
   * Five files are staged, then a batch of six is refused: five entries
   * remain, all holding live URLs, and no URL was created for the six.
   */
  method LimitScenario(five: seq<File>, six: seq<File>)
    returns (first: AddOutcome, second: AddOutcome, staged: nat, created: nat)
    requires |five| == 5 && |six| == 6
    ensures first == Added && second == LimitExceeded
    ensures staged == 5 && created == 5
  {
    var store := new FileStore();
    first := store.AddFiles(five);
    second := store.AddFiles(six);
    staged := |store.files|;
    created := store.nextUrl;
  }

  /**
   * Two files are staged, the first is removed and the submit reports the
   * remaining one's validity; afterwards nothing is staged and no URL is live.
   */
  method RemoveThenSubmitScenario(a: File, b: File)
    returns (count: nat, remaining: nat)
    ensures count == (if ValidateFile(b).valid then 1 else 0)
    ensures remaining == 0
  {
    var store := new FileStore();
    var outcome := store.AddFiles([a, b]);
    ProcessedAt([a, b], 0, 1);
    store.RemoveAt(0);
    assert store.files == [MakeEntry(b, 1)];
    count := store.Submit();
    remaining := |store.files|;
    assert store.live == {} && store.revoked == {0, 1};
  }

  /**
   * The stale buttons on the store: one file staged and submitted, then
   * the old Remove button and the old Replace button are used.  On the page
   * the two clicks are alternatives, since a Remove click redraws the list
   * and so takes the old Replace button away.  Here the stale remove
   * changes nothing, so the replace that follows starts from the state the
   * submit left, as a Replace click straight after the submit would.
   * Nothing is removed or revoked a second time, no URL is created for the
   * replacement, and the pending index is cleared.
   */
  method StaleClicksScenario(f: File, g: File)
    returns (staged: nat, created: nat, pending: int)
    ensures staged == 0 && created == 1 && pending == -1
  {
    var store := new FileStore();
    var outcome := store.AddFiles([f]);
    var count := store.Submit();
    store.RemoveAt(0);
    assert store.files == [] && store.live == {} && store.revoked == {0} && store.nextUrl == 1;
    store.TriggerReplace(0);
    store.ReplaceChange([g]);
    staged := |store.files|;
    created := store.nextUrl;
    pending := store.replaceIndex;
    assert store.live == {} && store.revoked == {0};
  }
}
