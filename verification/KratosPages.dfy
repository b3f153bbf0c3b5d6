/** Listing Kratos identities page by page (internal/kratosclient/admin.go): the
    two lookups by email. */
module KratosPages {
  import opened Text

  datatype Identity = Identity(id: string, email: string)

  /** The replies to the page requests of one listing, in the order of their
      tokens; `None` is a failed request.  The last one names no next page. */
  type Listing = seq<Option<seq<Identity>>>

  /** `lc`. */
  function Lower(s: string): string {
    seq(|s|, i requires 0 <= i < |s| => LowerChar(s[i]))
  }

  /** The identities up to the first failed page. */
  function Listed(pages: Listing): seq<Identity> {
    if pages == [] || pages[0].None? then [] else pages[0].value + Listed(pages[1..])
  }

  predicate AllRead(pages: Listing) {
    forall i :: 0 <= i < |pages| ==> pages[i].Some?
  }

  predicate Matches(i: Identity, wanted: string) {
    Lower(i.email) == wanted
  }

  /** The position of the first match, or the length. */
  function First(ids: seq<Identity>, wanted: string): (n: nat)
    ensures n <= |ids|
    ensures n < |ids| ==> Matches(ids[n], wanted)
    ensures forall i :: 0 <= i < n ==> !Matches(ids[i], wanted)
  {
    if ids == [] || Matches(ids[0], wanted) then 0 else 1 + First(ids[1..], wanted)
  }

  /** The ids by lower-case email, the last identity of an email winning. */
  function ByEmail(ids: seq<Identity>): map<string, string> {
    if ids == [] then map[]
    else
      var rest, last := ByEmail(ids[..|ids| - 1]), ids[|ids| - 1];
      if last.email == "" then rest else rest[Lower(last.email) := last.id]
  }

  lemma {:induction false} ListedAppend(pages: Listing, i: nat)
    requires i <= |pages| && AllRead(pages[..i])
    ensures Listed(pages) == Listed(pages[..i]) + Listed(pages[i..])
  {
    if i == 0 {
      assert pages[..0] == [] && pages[0..] == pages;
    } else {
      assert pages[0].Some? by {
        assert pages[..i][0].Some?;
      }
      assert pages[1..][..i - 1] == pages[..i][1..] && pages[1..][i - 1..] == pages[i..];
      ListedAppend(pages[1..], i - 1);
    }
  }

  /** A listing is its pages one after the other, up to the first that fails. */
  lemma ListedPages(pages: Listing, page: seq<Identity>, rest: Listing)
    requires AllRead(pages)
    ensures Listed(pages + [None] + rest) == Listed(pages)
    ensures Listed(pages + [Some(page)]) == Listed(pages) + page
  {
    var failed, more := pages + [None] + rest, pages + [Some(page)];
    assert failed[..|pages|] == pages && more[..|pages|] == pages;
    assert failed[|pages|..] == [None] + rest && more[|pages|..] == [Some(page)];
    ListedAppend(failed, |pages|);
    ListedAppend(more, |pages|);
    assert Listed([Some(page)]) == page + [];
  }

  /** Emails match when they differ at most in the case of ASCII letters. */
  lemma CaseIsIgnored(s: string, t: string)
    ensures Lower(s) == Lower(t) <==>
      |s| == |t| && forall i :: 0 <= i < |s| ==>
        || s[i] == t[i]
        || ('a' <= s[i] <= 'z' && s[i] as int - t[i] as int == 32)
        || ('a' <= t[i] <= 'z' && t[i] as int - s[i] as int == 32)
  {
    assert |Lower(s)| == |s| && |Lower(t)| == |t|;
    assert Lower(s) == Lower(t) <==> |s| == |t| && forall i :: 0 <= i < |s| ==> Lower(s)[i] == Lower(t)[i];
    assert forall i :: 0 <= i < |s| ==> Lower(s)[i] == LowerChar(s[i]);
    assert forall i :: 0 <= i < |t| ==> Lower(t)[i] == LowerChar(t[i]);
    hide Lower;
  }

  lemma PageStep(pages: Listing, i: nat)
    requires i < |pages| && AllRead(pages[..i + 1])
    ensures pages[i].Some? && Listed(pages[..i + 1]) == Listed(pages[..i]) + pages[i].value
  {
    var upTo := pages[..i + 1];
    assert upTo[i].Some? && upTo[..i] == pages[..i] && upTo[i..] == [pages[i]];
    ListedAppend(upTo, i);
    assert Listed([pages[i]]) == pages[i].value + [];
  }

  lemma ByEmailStep(before: seq<Identity>, page: seq<Identity>, j: nat)
    requires j < |page|
    ensures ByEmail(before + page[..j + 1]) ==
      if page[j].email == "" then ByEmail(before + page[..j])
      else ByEmail(before + page[..j])[Lower(page[j].email) := page[j].id]
  {
    var ids := before + page[..j + 1];
    assert ids[..|ids| - 1] == before + page[..j] && ids[|ids| - 1] == page[j];
  }

  /** `IdentityIDByEmail`: the first match on the pages read before a failure. */
  method IdentityIDByEmail(pages: Listing, email: string) returns (r: Result<string, ()>)
    requires pages != []
    ensures email == "" ==> r == Ok("")
    ensures email != "" ==>
      var n := First(Listed(pages), Lower(email));
      r == if n < |Listed(pages)| then Ok(Listed(pages)[n].id) else if AllRead(pages) then Ok("") else Err(())
  {
    var wanted := Lower(email);
    if wanted == "" {
      return Ok("");
    }
    var i := 0;
    while true
      invariant 0 <= i < |pages| && AllRead(pages[..i])
      invariant forall k :: 0 <= k < |Listed(pages[..i])| ==> !Matches(Listed(pages[..i])[k], wanted)
      decreases |pages| - i
    {
      ListedAppend(pages, i);
      ghost var before := Listed(pages[..i]);
      assert pages[i..][0] == pages[i];
      if pages[i].None? {
        FirstIs(Listed(pages), |before|, wanted);
        return Err(());
      }
      var page := pages[i].value;
      for j := 0 to |page|
        invariant forall k :: 0 <= k < j ==> !Matches(page[k], wanted)
      {
        if Lower(page[j].email) == wanted {
          assert forall k :: |before| <= k < |before| + |page| ==> Listed(pages)[k] == page[k - |before|];
          FirstIs(Listed(pages), |before| + j, wanted);
          return Ok(page[j].id);
        }
      }
      assert pages[..i + 1] == pages[..i] + [pages[i]];
      PageStep(pages, i);
      if i + 1 == |pages| {
        assert pages[..i + 1] == pages;
        FirstIs(Listed(pages), |Listed(pages)|, wanted);
        return Ok("");
      }
      i := i + 1;
    }
  }

  lemma FirstIs(ids: seq<Identity>, n: nat, wanted: string)
    requires n <= |ids| && (n < |ids| ==> Matches(ids[n], wanted))
    requires forall i :: 0 <= i < n ==> !Matches(ids[i], wanted)
    ensures First(ids, wanted) == n
  {
  }

  /** `AllIdentitiesByEmail`. */
  method AllIdentitiesByEmail(pages: Listing) returns (r: Result<map<string, string>, ()>)
    requires pages != []
    ensures r == if AllRead(pages) then Ok(ByEmail(Listed(pages))) else Err(())
  {
    var out: map<string, string> := map[];
    assert Listed(pages[..0]) == [];
    assert ByEmail([]) == map[];
    hide Lower, Listed, ByEmail;
    var i := 0;
    while true
      invariant 0 <= i < |pages| && AllRead(pages[..i])
      invariant out == ByEmail(Listed(pages[..i]))
      decreases |pages| - i
    {
      if pages[i].None? {
        return Err(());
      }
      var page := pages[i].value;
      ghost var before := Listed(pages[..i]);
      assert before + page[..0] == before;
      for j := 0 to |page|
        invariant out == ByEmail(before + page[..j])
      {
        ByEmailStep(before, page, j);
        if page[j].email == "" {
          continue;
        }
        out := out[Lower(page[j].email) := page[j].id];
      }
      assert page[..|page|] == page;
      assert pages[..i + 1] == pages[..i] + [pages[i]];
      PageStep(pages, i);
      if i + 1 == |pages| {
        assert pages[..i + 1] == pages;
        break;
      }
      i := i + 1;
    }
    r := Ok(out);
  }

  /** The position of the last match, if any. */
  ghost predicate IsLast(ids: seq<Identity>, wanted: string, n: int) {
    0 <= n < |ids| && Matches(ids[n], wanted) && forall i :: n < i < |ids| ==> !Matches(ids[i], wanted)
  }

  lemma {:induction false} ByEmailIsLast(ids: seq<Identity>, wanted: string, n: int)
    requires wanted != ""
    ensures IsLast(ids, wanted, n) ==> wanted in ByEmail(ids) && ByEmail(ids)[wanted] == ids[n].id
    ensures (forall i :: 0 <= i < |ids| ==> !Matches(ids[i], wanted)) ==> wanted !in ByEmail(ids)
  {
    if ids != [] {
      var m := |ids| - 1;
      ByEmailIsLast(ids[..m], wanted, n);
      if IsLast(ids, wanted, n) && n != m {
        assert ids[..m][n] == ids[n] && IsLast(ids[..m], wanted, n);
      }
      assert forall i :: 0 <= i < m ==> ids[..m][i] == ids[i];
    }
  }

  /** Over the same pages the single lookup finds an email exactly when the map
      has it, and they give the same id exactly when the first and the last
      identity with that email have it. */
  lemma LookupsAgreeExactly(ids: seq<Identity>, wanted: string, last: int)
    requires wanted != ""
    ensures First(ids, wanted) < |ids| <==> wanted in ByEmail(ids)
    ensures IsLast(ids, wanted, last) ==>
      (ids[First(ids, wanted)].id == ByEmail(ids)[wanted] <==> ids[First(ids, wanted)].id == ids[last].id)
  {
    ByEmailIsLast(ids, wanted, last);
    if First(ids, wanted) < |ids| {
      var n := LastMatch(ids, wanted);
      ByEmailIsLast(ids, wanted, n);
    } else {
      assert forall i :: 0 <= i < |ids| ==> !Matches(ids[i], wanted);
    }
  }

  lemma {:induction false} LastMatch(ids: seq<Identity>, wanted: string) returns (n: int)
    requires exists i :: 0 <= i < |ids| && Matches(ids[i], wanted)
    ensures IsLast(ids, wanted, n)
  {
    var m := |ids| - 1;
    if Matches(ids[m], wanted) {
      n := m;
    } else {
      var i :| 0 <= i < |ids| && Matches(ids[i], wanted);
      assert ids[..m][i] == ids[i];
      n := LastMatch(ids[..m], wanted);
      assert ids[..m][n] == ids[n];
    }
  }

  /** When no two identities share an email the two lookups agree. */
  lemma UniqueEmailsAgree(ids: seq<Identity>, wanted: string)
    requires wanted != ""
    requires forall i, j :: 0 <= i < j < |ids| && ids[i].email != "" ==> Lower(ids[i].email) != Lower(ids[j].email)
    ensures wanted in ByEmail(ids) <==> First(ids, wanted) < |ids|
    ensures wanted in ByEmail(ids) ==> ids[First(ids, wanted)].id == ByEmail(ids)[wanted]
  {
    LookupsAgreeExactly(ids, wanted, First(ids, wanted));
  }
}
