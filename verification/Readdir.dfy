/** Cookie paging of directory listings, as both backends run it. */
module Readdir {
  import opened Wire

  const COOKIEVERF_NONE: Bytes := Zeros(8)

  /** A directory entry as a page carries it: the cookie that resumes after it, and the rest. */
  datatype Entry<+E> = Entry(cookie: u64, info: E)

  datatype Page<+E> = Page(cookieverf: Bytes, entries: seq<Entry<E>>, eof: bool)

  datatype Fault = BadCookie | Refused(code: int)

  /**
   * A directory on a server. Cookies are distinct and not 0, which means "from the start". The
   * script says how each page is cut: how many entries, and whether a page that reaches the end
   * says so.
   */
  datatype Cut = Fails(code: int) | Entries(n: nat, tellsEof: bool)

  datatype Directory<E> = Directory(verf: Bytes, listing: seq<Entry<E>>)

  ghost predicate Listable<E>(d: Directory<E>) {
    && (forall i :: 0 <= i < |d.listing| ==> d.listing[i].cookie != 0)
    && (forall i, j :: 0 <= i < j < |d.listing| ==> d.listing[i].cookie != d.listing[j].cookie)
  }

  /** The position a cookie resumes at, if the server ever handed it out. */
  function Position<E>(listing: seq<Entry<E>>, cookie: u64): (p: Option<nat>)
    ensures p.Some? ==> 0 < p.value <= |listing| && listing[p.value - 1].cookie == cookie
    ensures p.None? ==> forall i :: 0 <= i < |listing| ==> listing[i].cookie != cookie
  {
    if listing == [] then None
    else if listing[|listing| - 1].cookie == cookie then Some(|listing|)
    else Position(listing[..|listing| - 1], cookie)
  }

  /** READDIR: a contiguous slice after the cookie; a stale verifier is refused. */
  function Readdir<E>(d: Directory<E>, cut: Cut, cookie: u64, verf: Bytes): Result<Page<E>, Fault> {
    if cut.Fails? then Err(Refused(cut.code))
    else if cookie != 0 && verf != d.verf then Err(BadCookie)
    else
      match if cookie == 0 then Some(0) else Position(d.listing, cookie)
      case None => Err(BadCookie)
      case Some(p) =>
        var end := if p + cut.n < |d.listing| then p + cut.n else |d.listing|;
        Ok(Page(d.verf, d.listing[p..end], end == |d.listing| && cut.tellsEof))
  }

  /** The cookie a reader holds once it has seen the first `k` entries. */
  function CookieAt<E>(d: Directory<E>, k: nat): u64
    requires k <= |d.listing|
  {
    if k == 0 then 0 else d.listing[k - 1].cookie
  }

  lemma {:induction false} ResumesAt<E>(d: Directory<E>, k: nat)
    requires Listable(d) && 0 < k <= |d.listing|
    ensures CookieAt(d, k) != 0 && Position(d.listing, CookieAt(d, k)) == Some(k)
  {
    var p := Position(d.listing, d.listing[k - 1].cookie);
    assert p.Some?;
    assert d.listing[p.value - 1].cookie == d.listing[k - 1].cookie;
  }

  /** Asking with the cookie and verifier of the first `k` entries yields what follows them. */
  lemma {:induction false} NextPage<E>(d: Directory<E>, cut: Cut, k: nat, verf: Bytes)
    requires Listable(d) && k <= |d.listing| && (k > 0 ==> verf == d.verf)
    ensures match Readdir(d, cut, CookieAt(d, k), verf)
      case Err(e) => cut.Fails? && e == Refused(cut.code)
      case Ok(page) =>
        && cut.Entries? && page.cookieverf == d.verf
        && page.entries == d.listing[k..PageEnd(d, cut, k)]
        && (page.eof <==> PageEnd(d, cut, k) == |d.listing| && cut.tellsEof)
  {
    if k > 0 {
      ResumesAt(d, k);
    }
  }

  // --- Where the loop stops ---------------------------------------------------------------

  /** The number of entries seen after a page that starts after the first `k`. */
  function PageEnd<E>(d: Directory<E>, cut: Cut, k: nat): (end: nat)
    requires cut.Entries? && k <= |d.listing|
    ensures k <= end <= |d.listing|
  {
    if k + cut.n < |d.listing| then k + cut.n else |d.listing|
  }

  /** The page is the last that is asked for: it says so, or it is empty. */
  predicate Stops<E>(d: Directory<E>, cut: Cut, k: nat)
    requires cut.Entries? && k <= |d.listing|
  {
    (PageEnd(d, cut, k) == |d.listing| && cut.tellsEof) || PageEnd(d, cut, k) == k
  }

  /** How far the loop gets from page `asked`, which starts after the first `k` entries. */
  function Reached<E>(d: Directory<E>, cuts: nat -> Cut, asked: nat, k: nat): (r: Result<nat, int>)
    requires k <= |d.listing|
    ensures r.Ok? ==> k <= r.value <= |d.listing|
    decreases |d.listing| - k
  {
    if cuts(asked).Fails? then Err(cuts(asked).code)
    else if Stops(d, cuts(asked), k) then Ok(PageEnd(d, cuts(asked), k))
    else Reached(d, cuts, asked + 1, PageEnd(d, cuts(asked), k))
  }

  /** Page by page: an error ends it, as does a page that is empty or reaches the end and says so. */
  lemma {:induction false} ReachedStep<E>(d: Directory<E>, cuts: nat -> Cut, asked: nat, k: nat)
    requires k <= |d.listing|
    ensures match cuts(asked)
      case Fails(code) => Reached(d, cuts, asked, k) == Err(code)
      case Entries(n, tellsEof) =>
        var end := if k + n < |d.listing| then k + n else |d.listing|;
        Reached(d, cuts, asked, k) ==
          if end == k || (end == |d.listing| && tellsEof) then Ok(end) else Reached(d, cuts, asked + 1, end)
  {
  }

  /** Where page `i` starts, and whether the loop ever asks for it. */
  function Start<E>(d: Directory<E>, cuts: nat -> Cut, i: nat): (k: nat)
    ensures k <= |d.listing|
  {
    if i == 0 then 0
    else
      var k := Start(d, cuts, i - 1);
      if cuts(i - 1).Fails? then k else PageEnd(d, cuts(i - 1), k)
  }

  predicate Asked<E>(d: Directory<E>, cuts: nat -> Cut, i: nat) {
    i == 0 || (Asked(d, cuts, i - 1) && cuts(i - 1).Entries? && !Stops(d, cuts(i - 1), Start(d, cuts, i - 1)))
  }

  lemma {:induction false} AskedBefore<E>(d: Directory<E>, cuts: nat -> Cut, i: nat, j: nat)
    requires i <= j && Asked(d, cuts, j)
    ensures Asked(d, cuts, i)
    decreases j
  {
    if i < j {
      AskedBefore(d, cuts, i, j - 1);
    }
  }

  /** No page that is asked for before the end of the listing is empty. */
  ghost predicate NoGap<E>(d: Directory<E>, cuts: nat -> Cut) {
    forall i: nat :: Asked(d, cuts, i) && Start(d, cuts, i) < |d.listing| && cuts(i).Entries? ==> cuts(i).n > 0
  }

  lemma {:induction false} ReachedFrom<E>(d: Directory<E>, cuts: nat -> Cut, asked: nat)
    requires Asked(d, cuts, asked) && Reached(d, cuts, asked, Start(d, cuts, asked)).Ok?
    ensures Reached(d, cuts, asked, Start(d, cuts, asked)) == Ok(|d.listing|) <==> NoGap(d, cuts)
    decreases |d.listing| - Start(d, cuts, asked)
  {
    var k := Start(d, cuts, asked);
    if Stops(d, cuts(asked), k) {
      forall i: nat | Asked(d, cuts, i) && i != asked
        ensures Start(d, cuts, i) < |d.listing| && cuts(i).Entries? ==> cuts(i).n > 0
      {
        if i > asked {
          AskedBefore(d, cuts, asked + 1, i);
        } else {
          AskedBefore(d, cuts, i + 1, asked);
        }
      }
    } else {
      ReachedFrom(d, cuts, asked + 1);
    }
  }

  /**
   * A listing that is returned at all is the whole one if and only if no page that was asked for
   * before the end came empty.
   */
  lemma {:induction false} CompleteExactly<E>(d: Directory<E>, cuts: nat -> Cut)
    requires Reached(d, cuts, 0, 0).Ok?
    ensures Reached(d, cuts, 0, 0) == Ok(|d.listing|) <==> NoGap(d, cuts)
  {
    ReachedFrom(d, cuts, 0);
  }

  /** Any tail of any directory can be lost without an error, by one empty page in front of it. */
  lemma {:induction false} TailIsLost<E>(d: Directory<E>, cuts: nat -> Cut)
    requires cuts(0).Entries? && cuts(0).n < |d.listing| && cuts(1).Entries? && cuts(1).n == 0
    ensures Reached(d, cuts, 0, 0) == Ok(cuts(0).n)
  {
    if cuts(0).n > 0 {
      assert Reached(d, cuts, 1, cuts(0).n) == Ok(cuts(0).n);
    }
  }

  /** For instance the second of two entries. */
  lemma {:induction false} SecondEntryIsLost()
    ensures var d := Directory([], [Entry(1, "a"), Entry(2, "b")]);
      Listable(d) && Reached(d, i => Entries(if i == 0 then 1 else 0, true), 0, 0) == Ok(1)
  {
    TailIsLost(Directory([], [Entry(1, "a"), Entry(2, "b")]), i => Entries(if i == 0 then 1 else 0, true));
  }

  function Converted<E, D>(convert: E -> D, entries: seq<Entry<E>>): seq<D> {
    seq(|entries|, i requires 0 <= i < |entries| => convert(entries[i].info))
  }

  /**
   * The `readdir` loop of either backend; `convert` is what it does to an entry, and `cuts`
   * decides every page the server may ever be asked for. The loop terminates, the server never
   * sees a cookie or verifier it did not hand out, and what is returned is exactly as many
   * entries as were reached, in order, each once.
   */
  method List<E, D>(d: Directory<E>, cuts: nat -> Cut, convert: E -> D) returns (r: Result<seq<D>, Fault>)
    requires Listable(d)
    ensures match Reached(d, cuts, 0, 0)
      case Ok(k) => r.Ok? && |r.value| == k && forall i :: 0 <= i < k ==> r.value[i] == convert(d.listing[i].info)
      case Err(code) => r == Err(Refused(code))
  {
    hide Listable, Position, Converted;
    NothingYet(d, convert);
    var out: seq<D> := [];
    var cookie: u64 := 0;
    var verf := COOKIEVERF_NONE;
    var asked := 0;
    ghost var k := 0;
    while true
      invariant 0 <= k <= |d.listing| && asked >= 0
      invariant out == Converted(convert, d.listing[..k])
      invariant cookie == CookieAt(d, k) && (k > 0 ==> verf == d.verf)
      invariant Reached(d, cuts, 0, 0) == Reached(d, cuts, asked, k)
      decreases |d.listing| - k
    {
      NextPage(d, cuts(asked), k, verf);
      var page := Readdir(d, cuts(asked), cookie, verf);
      asked := asked + 1;
      if page.Err? {
        return Err(page.error);
      }
      var entries := page.value.entries;
      verf := page.value.cookieverf;
      var empty := |entries| == 0;
      out, cookie := TakePage(d, k, entries, out, cookie, convert);
      k := k + |entries|;
      InOrder(d, k, convert);
      if page.value.eof || empty {
        return Ok(out);
      }
    }
  }

  lemma {:induction false} InOrder<E, D>(d: Directory<E>, k: nat, convert: E -> D)
    requires k <= |d.listing|
    ensures var out := Converted(convert, d.listing[..k]);
      |out| == k && forall i :: 0 <= i < k ==> out[i] == convert(d.listing[i].info)
  {
  }

  lemma {:induction false} NothingYet<E, D>(d: Directory<E>, convert: E -> D)
    ensures Converted(convert, d.listing[..0]) == []
  {
  }

  /** The inner loop: push each entry and remember its cookie. */
  method TakePage<E, D>(ghost d: Directory<E>, ghost k: nat, entries: seq<Entry<E>>, before: seq<D>, from: u64, convert: E -> D)
    returns (out: seq<D>, cookie: u64)
    requires k + |entries| <= |d.listing| && entries == d.listing[k..k + |entries|]
    requires before == Converted(convert, d.listing[..k]) && from == CookieAt(d, k)
    ensures out == Converted(convert, d.listing[..k + |entries|])
    ensures |out| == |before| + |entries| && out[..|before|] == before
    ensures forall i :: 0 <= i < |entries| ==> out[|before| + i] == convert(entries[i].info)
    ensures cookie == CookieAt(d, k + |entries|)
  {
    out, cookie := before, from;
    for i := 0 to |entries|
      invariant out == Converted(convert, d.listing[..k + i])
      invariant cookie == CookieAt(d, k + i)
    {
      assert d.listing[..k + i + 1] == d.listing[..k + i] + [entries[i]];
      out := out + [convert(entries[i].info)];
      cookie := entries[i].cookie;
    }
  }
}
