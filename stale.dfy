/**
 * script.js as written, for the two seconds after a submit.  The submit
 * handler empties `files` and revokes every URL, but redraws the list only
 * through `setTimeout(renderList, 2000)`.  Until then the Remove and Replace
 * buttons drawn for the old entries stay on screen.  A Remove button revokes
 * the entry it captured when it was drawn; a Replace button records its
 * drawn position.  Here the page is a value, and every revoke call is logged,
 * so a URL revoked twice appears twice in the log.
 */
module StaleButtons {
  import opened Validation
  import opened Entries

  datatype Page = Page(files: seq<Entry>, replaceIndex: int, nextUrl: nat,
                       live: set<Url>, revokeLog: seq<Url>)

  /** What a handler leaves: it finished, or it threw after these changes took effect. */
  datatype Outcome = Done(page: Page) | Threw(page: Page)

  /** `URL.revokeObjectURL` as the page calls it, live or not. */
  function Revoke(p: Page, u: Url): (r: Page)
    ensures r.revokeLog == p.revokeLog + [u] && r.live == p.live - {u}
    ensures r.files == p.files && r.replaceIndex == p.replaceIndex && r.nextUrl == p.nextUrl
  {
    p.(live := p.live - {u}, revokeLog := p.revokeLog + [u])
  }

  /** `files.forEach(item => URL.revokeObjectURL(item.url))`. */
  function RevokeEach(p: Page, s: seq<Entry>): (r: Page)
    ensures r.files == p.files && r.replaceIndex == p.replaceIndex && r.nextUrl == p.nextUrl
    ensures |r.revokeLog| == |p.revokeLog| + |s|
    ensures r.revokeLog[..|p.revokeLog|] == p.revokeLog
    ensures forall k :: 0 <= k < |s| ==> r.revokeLog[|p.revokeLog| + k] == s[k].url
    ensures r.live == p.live - UrlsOf(s)
    decreases |s|
  {
    if s == [] then p
    else
      assert s == [s[0]] + s[1..];
      UrlsOfAppend([s[0]], s[1..]);
      UrlsOfSingleton(s[0]);
      RevokeEach(Revoke(p, s[0].url), s[1..])
  }

  /** The submit handler: revoke every URL and empty the list; no redraw yet. */
  function SubmitAsWritten(p: Page): (r: Page)
    ensures r.files == [] && |r.revokeLog| == |p.revokeLog| + |p.files|
    ensures r.revokeLog[..|p.revokeLog|] == p.revokeLog
    ensures forall k :: 0 <= k < |p.files| ==> r.revokeLog[|p.revokeLog| + k] == p.files[k].url
    ensures r.live == p.live - UrlsOf(p.files)
    ensures r.replaceIndex == p.replaceIndex && r.nextUrl == p.nextUrl
  {
    RevokeEach(p, p.files).(files := [])
  }

  /** The Remove button drawn for `item` at position `index`. */
  function RemoveClickAsWritten(p: Page, item: Entry, index: nat): (r: Page)
    ensures r.revokeLog == p.revokeLog + [item.url]
    ensures index >= |p.files| ==> r.files == p.files
  {
    var q := Revoke(p, item.url);
    q.(files := if index < |q.files| then Splice(q.files, index) else q.files)
  }

  /** The Replace button drawn at position `index`. */
  function ReplaceClickAsWritten(p: Page, index: nat): (r: Page)
    ensures r.replaceIndex == index
    ensures r.files == p.files && r.nextUrl == p.nextUrl && r.live == p.live && r.revokeLog == p.revokeLog
  {
    p.(replaceIndex := index)
  }

  /**
   * The replace-input handler: the URL is created first; reading the old
   * entry's URL throws when the pending position is gone, and everything
   * after that line is skipped.
   */
  function ReplaceChangeAsWritten(p: Page, chosen: seq<File>): (o: Outcome)
    ensures p.replaceIndex != -1 && |chosen| > 0 ==> o.page.nextUrl == p.nextUrl + 1
    ensures o.Threw? <==> p.replaceIndex != -1 && |chosen| > 0 && !(0 <= p.replaceIndex < |p.files|)
    ensures o.Threw? ==> o.page == p.(nextUrl := p.nextUrl + 1, live := p.live + {p.nextUrl})
    ensures o.Threw? && p.nextUrl !in UrlsOf(p.files) ==>
              p.nextUrl in o.page.live && p.nextUrl !in UrlsOf(o.page.files)
  {
    if p.replaceIndex == -1 || |chosen| == 0 then Done(p)
    else
      var url := p.nextUrl;
      var q := p.(nextUrl := url + 1, live := p.live + {url});
      if !(0 <= q.replaceIndex < |q.files|) then Threw(q)
      else
        var r := Revoke(q, q.files[q.replaceIndex].url);
        Done(r.(files := r.files[q.replaceIndex := MakeEntry(chosen[0], url)], replaceIndex := -1))
  }

  /** A page with one staged file whose URL is 0. */
  function OneStaged(f: File): Page
  {
    Page([MakeEntry(f, 0)], -1, 1, {0}, [])
  }

  /**
   * A Remove button still on screen after a submit revokes its entry's URL
   * a second time: the log holds URL 0 twice, and the list stays empty.
   */
  lemma StaleRemoveRevokesTwice(f: File)
    ensures SubmitAsWritten(OneStaged(f)).revokeLog == [0]
    ensures RemoveClickAsWritten(SubmitAsWritten(OneStaged(f)), MakeEntry(f, 0), 0).revokeLog == [0, 0]
    ensures RemoveClickAsWritten(SubmitAsWritten(OneStaged(f)), MakeEntry(f, 0), 0).files == []
  {
    var p := OneStaged(f);
    var e := MakeEntry(f, 0);
    assert RevokeEach(p, [e]) == RevokeEach(Revoke(p, 0), []);
  }

  /**
   * A Replace button still on screen after a submit, followed by a chosen
   * file, creates URL 1 and then throws: URL 1 stays live though no entry
   * holds it, and the pending index is never reset.
   */
  lemma StaleReplaceLeaksUrl(f: File, g: File)
    ensures var o := ReplaceChangeAsWritten(ReplaceClickAsWritten(SubmitAsWritten(OneStaged(f)), 0), [g]);
            && o.Threw?
            && o.page.files == []
            && o.page.live == {1}
            && 1 !in UrlsOf(o.page.files)
            && o.page.replaceIndex == 0
  {
    var p := OneStaged(f);
    var e := MakeEntry(f, 0);
    assert RevokeEach(p, [e]) == RevokeEach(Revoke(p, 0), []);
    assert SubmitAsWritten(p).live == {};
  }
}
