/** What a directory listing keeps: this project's own names, up to a fixed capacity. */
module Listings {
  import opened Types
  import opened Peer
  import opened UploadName

  const MAX_LISTED: nat := 512

  datatype Listing = Listing(entries: seq<Entry>, skipped: nat, truncated: bool, dirMissing: bool)

  const EMPTY := Listing([], 0, false, false)

  /** One entry met while listing. */
  ghost function Take(l: Listing, e: Entry): Listing {
    if l.truncated then l
    else if !IsUploadName(e.name) then l.(skipped := l.skipped + 1)
    else if |l.entries| == MAX_LISTED then l.(truncated := true)
    else l.(entries := l.entries + [e])
  }

  /** The listing after meeting `es` in order. */
  ghost function Scan(es: seq<Entry>): Listing {
    if es == [] then EMPTY else Take(Scan(es[..|es| - 1]), es[|es| - 1])
  }

  /** The entries that carry an upload name. */
  ghost function Ours(es: seq<Entry>): (r: seq<Entry>)
    ensures |r| <= |es|
  {
    if es == [] then []
    else
      var init := Ours(es[..|es| - 1]);
      if IsUploadName(es[|es| - 1].name) then init + [es[|es| - 1]] else init
  }

  lemma ScanNext(es: seq<Entry>, e: Entry)
    ensures Scan(es + [e]) == Take(Scan(es), e)
  {
    assert (es + [e])[..|es|] == es;
  }

  /** The listing is the first 512 upload names in order; it is truncated exactly when there
      is one more, and `skipped` counts the foreign names met before that one. */
  lemma {:induction false} ScanMeaning(es: seq<Entry>)
    ensures Scan(es).entries == Ours(es)[..Min(512, |Ours(es)|)]
    ensures Scan(es).truncated <==> 512 < |Ours(es)|
    ensures !Scan(es).truncated ==> Scan(es).skipped == |es| - |Ours(es)|
    ensures Scan(es).truncated ==> exists n: nat :: OneTooMany(es, n) && Scan(es).skipped + MAX_LISTED == n
    ensures !Scan(es).dirMissing
  {
    hide IsUploadName;
    if es != [] {
      var init, e := es[..|es| - 1], es[|es| - 1];
      ScanMeaning(init);
      if Scan(init).truncated {
        var n: nat :| OneTooMany(init, n) && Scan(init).skipped + MAX_LISTED == n;
        assert init[..n] == es[..n];
        assert OneTooMany(es, n);
      } else if Scan(es).truncated {
        assert OneTooMany(es, |es| - 1);
      }
    }
  }

  /** Entry `n` is the first upload name that no longer fits. */
  ghost predicate OneTooMany(es: seq<Entry>, n: nat) {
    n < |es| && |Ours(es[..n])| == MAX_LISTED && IsUploadName(es[n].name)
  }

  /** Nothing after the entry that did not fit can change the listing. */
  lemma {:induction false} ScanStops(es: seq<Entry>, more: seq<Entry>)
    requires Scan(es).truncated
    ensures Scan(es + more) == Scan(es)
  {
    if more == [] {
      assert es + more == es;
    } else {
      var init := more[..|more| - 1];
      ScanStops(es, init);
      assert es + more == (es + init) + [more[|more| - 1]];
      ScanNext(es + init, more[|more| - 1]);
    }
  }

  /** Every entry kept, from any peer, carries an upload name, and there are at most 512. */
  lemma {:induction false} ScanKeepsOurs(es: seq<Entry>)
    ensures |Scan(es).entries| <= 512
    ensures forall k :: 0 <= k < |Scan(es).entries| ==> IsUploadName(Scan(es).entries[k].name)
  {
    if es != [] {
      ScanKeepsOurs(es[..|es| - 1]);
    }
  }
}
