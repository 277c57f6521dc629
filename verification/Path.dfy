/**
 * Path resolution of `NfsContext`: the worklist that splices symbolic-link targets in front of
 * the components still to be walked, against a resolver that walks each link target on its own.
 */
module Path {
  import opened Wire

  const MAX_SYMLINK_DEPTH: nat := 40

  // --- Components -------------------------------------------------------------------------

  /** `split_components`: the non-empty pieces between slashes. */
  function SplitComponents(path: string): (comps: seq<string>)
    ensures forall i :: 0 <= i < |comps| ==> IsComponent(comps[i])
  {
    SplitFrom([], path)
  }

  predicate IsComponent(c: string) {
    c != [] && '/' !in c
  }

  /** Splits with `word` already collected since the last slash. */
  function SplitFrom(word: string, path: string): (comps: seq<string>)
    requires '/' !in word
    ensures forall i :: 0 <= i < |comps| ==> IsComponent(comps[i])
    decreases |path|
  {
    if path == [] then Flush(word)
    else if path[0] == '/' then Flush(word) + SplitFrom([], path[1..])
    else SplitFrom(word + [path[0]], path[1..])
  }

  function Flush(word: string): seq<string> {
    if word == [] then [] else [word]
  }

  /** `format!("/{}", comps.join("/"))`, which `resolve_parent` hands back to `resolve`. */
  function JoinPath(comps: seq<string>): string {
    "/" + JoinSlash(comps)
  }

  function JoinSlash(comps: seq<string>): string {
    if comps == [] then ""
    else if |comps| == 1 then comps[0]
    else comps[0] + "/" + JoinSlash(comps[1..])
  }

  lemma {:induction false} SplitWord(word: string, c: string, rest: string)
    requires '/' !in word && '/' !in c
    ensures SplitFrom(word, c + rest) == SplitFrom(word + c, rest)
    decreases |c|
  {
    if c == [] {
      assert c + rest == rest && word + c == word;
    } else {
      assert (c + rest)[1..] == c[1..] + rest;
      SplitWord(word + [c[0]], c[1..], rest);
      assert word + [c[0]] + c[1..] == word + c;
    }
  }

  /** Joining components and splitting the result gives the components back. */
  lemma {:induction false} SplitJoin(comps: seq<string>)
    requires forall i :: 0 <= i < |comps| ==> IsComponent(comps[i])
    ensures SplitComponents(JoinPath(comps)) == comps
  {
    assert JoinPath(comps)[1..] == JoinSlash(comps);
    SplitJoinSlash(comps);
    assert [] + comps == comps;
  }

  lemma {:induction false} SplitJoinSlash(comps: seq<string>)
    requires forall i :: 0 <= i < |comps| ==> IsComponent(comps[i])
    ensures SplitFrom([], JoinSlash(comps)) == comps
  {
    if |comps| == 1 {
      SplitWord([], comps[0], "");
      assert comps[0] + "" == comps[0] && [] + comps[0] == comps[0];
    } else if |comps| > 1 {
      var tail := JoinSlash(comps[1..]);
      assert JoinSlash(comps) == comps[0] + ("/" + tail);
      SplitWord([], comps[0], "/" + tail);
      assert [] + comps[0] == comps[0] && ("/" + tail)[1..] == tail;
      SplitJoinSlash(comps[1..]);
    }
  }

  /** A slash separates, wherever it is. */
  lemma {:induction false} SplitSlash(a: string, b: string)
    ensures SplitComponents(a + "/" + b) == SplitComponents(a) + SplitComponents(b)
  {
    SplitFromSlash([], a, b);
  }

  lemma {:induction false} SplitFromSlash(word: string, a: string, b: string)
    requires '/' !in word
    ensures SplitFrom(word, a + "/" + b) == SplitFrom(word, a) + SplitFrom([], b)
    decreases |a|
  {
    var path := a + "/" + b;
    if a == [] {
      assert path == "/" + b && path[1..] == b;
    } else {
      assert path[0] == a[0] && path[1..] == a[1..] + "/" + b;
      if a[0] == '/' {
        SplitFromSlash([], a[1..], b);
        assert Flush(word) + (SplitFrom([], a[1..]) + SplitFrom([], b)) == Flush(word) + SplitFrom([], a[1..]) + SplitFrom([], b);
      } else {
        SplitFromSlash(word + [a[0]], a[1..], b);
      }
    }
  }

  /** Nothing else does: a path without one is a component, or nothing. */
  lemma {:induction false} SplitPlain(c: string)
    requires '/' !in c
    ensures SplitComponents(c) == if c == "" then [] else [c]
  {
    SplitWord([], c, "");
    assert c + "" == c && [] + c == c;
  }

  // --- The file system --------------------------------------------------------------------

  type ObjId = Bytes

  datatype Error = TooManySymlinks | InvalidPath | Backend(code: int)

  datatype Entry = Entry(fh: ObjId, symlink: bool)

  /** What the server answers to `lookup` and `readlink` while a path is being resolved. */
  datatype Fs = Fs(root: ObjId, names: (ObjId, string) -> Result<Entry, int>, links: ObjId -> Result<string, int>) {
    function Lookup(dir: ObjId, name: string): (r: Result<Entry, Error>)
      ensures r.Err? ==> r.error.Backend?
    {
      Lift(names(dir, name))
    }

    function Readlink(fh: ObjId): (r: Result<string, Error>)
      ensures r.Err? ==> r.error.Backend?
    {
      Lift(links(fh))
    }
  }

  function Lift<T>(r: Result<T, int>): (l: Result<T, Error>)
    ensures l.Err? ==> l.error.Backend?
  {
    if r.Ok? then Ok(r.value) else Err(Backend(r.error))
  }

  /** Where a link target starts: the root, or the directory that holds the link. */
  function Start(fs: Fs, cur: ObjId, target: string): ObjId {
    if target != [] && target[0] == '/' then fs.root else cur
  }

  // --- The recursive resolver -------------------------------------------------------------

  /** The object reached and the links that may still be crossed. */
  datatype Walked = Walked(obj: ObjId, budget: nat)

  /**
   * Walks components one at a time. A link is resolved on its own, to the end, before the
   * components after it are walked from where it leads.
   */
  function Walk(fs: Fs, cur: ObjId, comps: seq<string>, budget: nat, followFinal: bool): (r: Result<Walked, Error>)
    ensures r.Ok? ==> r.value.budget <= budget
    decreases budget, |comps|
  {
    if comps == [] then Ok(Walked(cur, budget))
    else if comps[0] == "." then Walk(fs, cur, comps[1..], budget, followFinal)
    else
      var entry :- fs.Lookup(cur, comps[0]);
      if entry.symlink && (comps[1..] != [] || followFinal) then
        if budget == 0 then Err(TooManySymlinks)
        else
          var target :- fs.Readlink(entry.fh);
          var there :- Walk(fs, Start(fs, cur, target), SplitComponents(target), budget - 1, true);
          Walk(fs, there.obj, comps[1..], there.budget, followFinal)
      else Walk(fs, entry.fh, comps[1..], budget, followFinal)
  }

  function Resolve(fs: Fs, path: string, followFinal: bool): Result<ObjId, Error> {
    var w :- Walk(fs, fs.root, SplitComponents(path), MAX_SYMLINK_DEPTH, followFinal);
    Ok(w.obj)
  }

  function Then(fs: Fs, first: Result<Walked, Error>, comps: seq<string>, followFinal: bool): Result<Walked, Error> {
    var w :- first;
    Walk(fs, w.obj, comps, w.budget, followFinal)
  }

  /**
   * Resolution composes: for a non-empty `q`, walking `p/q` is walking `p`, following a final
   * link, and then walking `q` from there with the links that are left.
   */
  lemma {:induction false} WalkConcat(fs: Fs, cur: ObjId, p: seq<string>, q: seq<string>, budget: nat, followFinal: bool)
    requires q != []
    ensures Walk(fs, cur, p + q, budget, followFinal) == Then(fs, Walk(fs, cur, p, budget, true), q, followFinal)
    decreases budget, |p|
  {
    hide SplitComponents, Start;
    if p == [] {
      assert p + q == q;
    } else {
      assert (p + q)[0] == p[0] && (p + q)[1..] == p[1..] + q;
      if p[0] == "." {
        WalkConcat(fs, cur, p[1..], q, budget, followFinal);
      } else if fs.Lookup(cur, p[0]).Ok? {
        var entry := fs.Lookup(cur, p[0]).value;
        if !entry.symlink {
          WalkConcat(fs, entry.fh, p[1..], q, budget, followFinal);
        } else if budget > 0 && fs.Readlink(entry.fh).Ok? {
          var target := fs.Readlink(entry.fh).value;
          var there := Walk(fs, Start(fs, cur, target), SplitComponents(target), budget - 1, true);
          if there.Ok? {
            WalkConcat(fs, there.value.obj, p[1..], q, there.value.budget, followFinal);
          }
        }
      }
    }
  }

  /** Splicing a link's target in front of what remains is walking the target first. */
  lemma {:induction false} WalkSplice(fs: Fs, start: ObjId, target: seq<string>, rest: seq<string>, budget: nat, followFinal: bool)
    requires rest != [] || followFinal
    ensures Walk(fs, start, target + rest, budget, followFinal)
         == Then(fs, Walk(fs, start, target, budget, true), rest, followFinal)
  {
    hide Walk;
    if rest == [] {
      assert target + rest == target;
      WalkNothing(fs, start, target, budget);
    } else {
      WalkConcat(fs, start, target, rest, budget, followFinal);
    }
  }

  lemma {:induction false} WalkNothing(fs: Fs, cur: ObjId, comps: seq<string>, budget: nat)
    ensures Then(fs, Walk(fs, cur, comps, budget, true), [], true) == Walk(fs, cur, comps, budget, true)
  {
  }

  // --- The worklist -----------------------------------------------------------------------

  /**
   * `resolve`. The loop returns what the recursive resolver returns, terminates because each
   * round crosses a link or shortens the list, and looks up at most one name per component of
   * the path and of the targets of the links it crosses.
   */
  method ResolveLoop(fs: Fs, path: string, followFinal: bool, ghost widest: nat)
    returns (r: Result<ObjId, Error>, ghost lookups: nat)
    ensures r == Resolve(fs, path, followFinal)
    ensures (forall o :: fs.Readlink(o).Ok? ==> |SplitComponents(fs.Readlink(o).value)| <= widest) ==>
      lookups <= |SplitComponents(path)| + 40 * widest
  {
    hide SplitComponents, Walk;
    var cur := fs.root;
    var comps := SplitComponents(path);
    var depth := 0;
    lookups := 0;
    ghost var narrow := forall o :: fs.Readlink(o).Ok? ==> |SplitComponents(fs.Readlink(o).value)| <= widest;
    while |comps| > 0
      invariant depth <= MAX_SYMLINK_DEPTH
      invariant Walk(fs, fs.root, SplitComponents(path), MAX_SYMLINK_DEPTH, followFinal)
             == Walk(fs, cur, comps, MAX_SYMLINK_DEPTH - depth, followFinal)
      invariant narrow ==> lookups + |comps| <= |SplitComponents(path)| + depth * widest
      decreases MAX_SYMLINK_DEPTH - depth, |comps|
    {
      MoreLinks(depth, widest);
      var name := comps[0];
      WalkStep(fs, cur, comps, MAX_SYMLINK_DEPTH - depth, followFinal);
      comps := comps[1..];
      if name == "." {
        continue;
      }
      lookups := lookups + 1;
      var found := fs.Lookup(cur, name);
      if found.Err? {
        return Err(found.error), lookups;
      }
      var entry := found.value;
      var isLast := |comps| == 0;
      if entry.symlink && (!isLast || followFinal) {
        depth := depth + 1;
        if depth > MAX_SYMLINK_DEPTH {
          return Err(TooManySymlinks), lookups;
        }
        var read := fs.Readlink(entry.fh);
        if read.Err? {
          return Err(read.error), lookups;
        }
        var target := read.value;
        WalkSplice(fs, Start(fs, cur, target), SplitComponents(target), comps, MAX_SYMLINK_DEPTH - depth, followFinal);
        comps := SplitComponents(target) + comps;
        if target != [] && target[0] == '/' {
          cur := fs.root;
        }
      } else {
        cur := entry.fh;
      }
    }
    WalkEnd(fs, cur, MAX_SYMLINK_DEPTH - depth, followFinal);
    MoreLinks(depth, widest);
    r := Ok(cur);
  }

  lemma {:induction false} MoreLinks(depth: nat, widest: nat)
    requires depth <= MAX_SYMLINK_DEPTH
    ensures (depth + 1) * widest == depth * widest + widest
    ensures depth * widest <= MAX_SYMLINK_DEPTH * widest
  {
  }

  lemma {:induction false} WalkEnd(fs: Fs, cur: ObjId, budget: nat, followFinal: bool)
    ensures Walk(fs, cur, [], budget, followFinal) == Ok(Walked(cur, budget))
  {
  }

  /** One unfolding of the resolver. */
  lemma {:induction false} WalkStep(fs: Fs, cur: ObjId, comps: seq<string>, budget: nat, followFinal: bool)
    requires comps != []
    ensures Walk(fs, cur, comps, budget, followFinal) ==
      if comps[0] == "." then Walk(fs, cur, comps[1..], budget, followFinal)
      else
        var found := fs.Lookup(cur, comps[0]);
        if found.Err? then Err(found.error)
        else if found.value.symlink && (comps[1..] != [] || followFinal) then
          if budget == 0 then Err(TooManySymlinks)
          else
            var read := fs.Readlink(found.value.fh);
            if read.Err? then Err(read.error)
            else
              var start := if read.value != [] && read.value[0] == '/' then fs.root else cur;
              Then(fs, Walk(fs, start, SplitComponents(read.value), budget - 1, true), comps[1..], followFinal)
        else Walk(fs, found.value.fh, comps[1..], budget, followFinal)
  {
    hide SplitComponents;
  }

  // --- Laws of names and links ------------------------------------------------------------

  /** A walk that leaves a link unspent needs one fewer. */
  lemma {:induction false} SpareLink(fs: Fs, cur: ObjId, comps: seq<string>, budget: nat, followFinal: bool)
    requires Walk(fs, cur, comps, budget, followFinal).Ok? && Walk(fs, cur, comps, budget, followFinal).value.budget > 0
    ensures budget > 0
    ensures var w := Walk(fs, cur, comps, budget, followFinal).value;
      Walk(fs, cur, comps, budget - 1, followFinal) == Ok(Walked(w.obj, w.budget - 1))
    decreases budget, |comps|
  {
    hide SplitComponents, Walk;
    if comps == [] {
      WalkEnd(fs, cur, budget, followFinal);
      WalkEnd(fs, cur, budget - 1, followFinal);
      return;
    }
    WalkStep(fs, cur, comps, budget, followFinal);
    WalkStep(fs, cur, comps, budget - 1, followFinal);
    var rest := comps[1..];
    if comps[0] == "." {
      SpareLink(fs, cur, rest, budget, followFinal);
    } else {
      var entry := fs.Lookup(cur, comps[0]).value;
      if entry.symlink && (rest != [] || followFinal) {
        var target := fs.Readlink(entry.fh).value;
        var start := if target != [] && target[0] == '/' then fs.root else cur;
        var there := Walk(fs, start, SplitComponents(target), budget - 1, true).value;
        SpareLink(fs, there.obj, rest, there.budget, followFinal);
        SpareLink(fs, start, SplitComponents(target), budget - 1, true);
      } else {
        SpareLink(fs, entry.fh, rest, budget, followFinal);
      }
    }
  }

  /**
   * What a link means. If `p` leads to a directory in which `l` is a link to `target`, then
   * walking `p/l/q` is walking `p/target/q` with one link fewer when the target is relative, and
   * walking `target/q` from the root with what `p` has left, less one, when it is absolute.
   */
  lemma {:induction false} LinkMeansTarget(fs: Fs, p: seq<string>, l: string, q: seq<string>, budget: nat, followFinal: bool, dir: Walked, link: ObjId, target: string)
    requires Walk(fs, fs.root, p, budget, true) == Ok(dir) && dir.budget > 0 && l != "."
    requires fs.Lookup(dir.obj, l) == Ok(Entry(link, true)) && fs.Readlink(link) == Ok(target)
    requires q != [] || followFinal
    ensures budget > 0
    ensures target == "" || target[0] != '/' ==>
      Walk(fs, fs.root, p + ([l] + q), budget, followFinal)
        == Walk(fs, fs.root, p + (SplitComponents(target) + q), budget - 1, followFinal)
    ensures target != "" && target[0] == '/' ==>
      Walk(fs, fs.root, p + ([l] + q), budget, followFinal)
        == Walk(fs, fs.root, SplitComponents(target) + q, dir.budget - 1, followFinal)
  {
    hide SplitComponents, Walk;
    SpareLink(fs, fs.root, p, budget, true);
    WalkConcat(fs, fs.root, p, [l] + q, budget, followFinal);
    WalkStep(fs, dir.obj, [l] + q, dir.budget, followFinal);
    assert ([l] + q)[1..] == q;
    var there := SplitComponents(target) + q;
    var start := if target != [] && target[0] == '/' then fs.root else dir.obj;
    WalkSplice(fs, start, SplitComponents(target), q, dir.budget - 1, followFinal);
    if there == [] {
      assert p + there == p;
      WalkEnd(fs, start, dir.budget - 1, followFinal);
    } else {
      WalkConcat(fs, fs.root, p, there, budget - 1, followFinal);
    }
  }

  /** With no links left, a link to be followed ends the walk. */
  lemma {:induction false} LastLinkFails(fs: Fs, p: seq<string>, l: string, q: seq<string>, budget: nat, followFinal: bool, dir: ObjId, link: ObjId)
    requires Walk(fs, fs.root, p, budget, true) == Ok(Walked(dir, 0)) && l != "."
    requires fs.Lookup(dir, l) == Ok(Entry(link, true)) && (q != [] || followFinal)
    ensures Walk(fs, fs.root, p + ([l] + q), budget, followFinal) == Err(TooManySymlinks)
  {
    hide SplitComponents, Walk;
    WalkConcat(fs, fs.root, p, [l] + q, budget, followFinal);
    WalkStep(fs, dir, [l] + q, 0, followFinal);
    assert ([l] + q)[1..] == q;
  }

  /** Any other name means what the directory calls it; "." means nothing. */
  lemma {:induction false} NameMeansEntry(fs: Fs, p: seq<string>, l: string, budget: nat, followFinal: bool, dir: Walked)
    requires Walk(fs, fs.root, p, budget, true) == Ok(dir)
    ensures var w := Walk(fs, fs.root, p + [l], budget, followFinal);
      && (l == "." ==> w == Ok(dir))
      && (l != "." ==>
            match fs.Lookup(dir.obj, l)
            case Err(e) => w == Err(e)
            case Ok(entry) => !entry.symlink || !followFinal ==> w == Ok(Walked(entry.fh, dir.budget)))
  {
    hide SplitComponents, Walk;
    WalkConcat(fs, fs.root, p, [l], budget, followFinal);
    WalkStep(fs, dir.obj, [l], dir.budget, followFinal);
    assert [l][1..] == [];
    WalkEnd(fs, dir.obj, dir.budget, followFinal);
    if fs.Lookup(dir.obj, l).Ok? {
      WalkEnd(fs, fs.Lookup(dir.obj, l).value.fh, dir.budget, followFinal);
    }
  }

  /** `resolve_parent`: the directory that all but the last component lead to, and the name. */
  method ResolveParent(fs: Fs, path: string) returns (r: Result<(ObjId, string), Error>)
    ensures
      var comps := SplitComponents(path);
      if comps == [] then r == Err(InvalidPath)
      else
        match Walk(fs, fs.root, comps[..|comps| - 1], MAX_SYMLINK_DEPTH, true)
        case Err(e) => r == Err(e)
        case Ok(w) => r == Ok((w.obj, comps[|comps| - 1]))
  {
    hide Walk, SplitComponents;
    var comps := SplitComponents(path);
    if comps == [] {
      return Err(InvalidPath);
    }
    var parent := JoinPath(comps[..|comps| - 1]);
    SplitJoin(comps[..|comps| - 1]);
    var dir, _ := ResolveLoop(fs, parent, true, 0);
    r := if dir.Err? then Err(dir.error) else Ok((dir.value, comps[|comps| - 1]));
  }

  /** `more` answers whatever `fs` answers, and possibly more names. */
  ghost predicate Extends(fs: Fs, more: Fs) {
    && fs.root == more.root && fs.links == more.links
    && forall d, n :: fs.names(d, n).Ok? ==> more.names(d, n) == fs.names(d, n)
  }

  /** A walk that succeeds keeps its result when names are added. */
  lemma {:induction false} WalkStable(fs: Fs, more: Fs, cur: ObjId, comps: seq<string>, budget: nat, followFinal: bool)
    requires Extends(fs, more) && Walk(fs, cur, comps, budget, followFinal).Ok?
    ensures Walk(more, cur, comps, budget, followFinal) == Walk(fs, cur, comps, budget, followFinal)
    decreases budget, |comps|
  {
    hide SplitComponents, Walk;
    if comps == [] {
      WalkEnd(fs, cur, budget, followFinal);
      WalkEnd(more, cur, budget, followFinal);
      return;
    }
    WalkStep(fs, cur, comps, budget, followFinal);
    WalkStep(more, cur, comps, budget, followFinal);
    var rest := comps[1..];
    if comps[0] == "." {
      WalkStable(fs, more, cur, rest, budget, followFinal);
    } else {
      var entry := fs.Lookup(cur, comps[0]).value;
      if entry.symlink && (rest != [] || followFinal) {
        var target := fs.Readlink(entry.fh).value;
        var start := Start(fs, cur, target);
        WalkStable(fs, more, start, SplitComponents(target), budget - 1, true);
        var there := Walk(fs, start, SplitComponents(target), budget - 1, true).value;
        WalkStable(fs, more, there.obj, rest, there.budget, followFinal);
      } else {
        WalkStable(fs, more, entry.fh, rest, budget, followFinal);
      }
    }
  }

  /** When the last name is no link, the object of a path is what its directory calls it. */
  lemma {:induction false} ResolveByParent(fs: Fs, path: string, dir: ObjId, entry: Entry, budget: nat, followFinal: bool)
    requires SplitComponents(path) != []
    requires var comps := SplitComponents(path);
      && Walk(fs, fs.root, comps[..|comps| - 1], MAX_SYMLINK_DEPTH, true) == Ok(Walked(dir, budget))
      && comps[|comps| - 1] != "."
      && fs.Lookup(dir, comps[|comps| - 1]) == Ok(entry) && !entry.symlink
    ensures Resolve(fs, path, followFinal) == Ok(entry.fh)
  {
    hide SplitComponents, Walk;
    var comps := SplitComponents(path);
    var last := [comps[|comps| - 1]];
    assert comps == comps[..|comps| - 1] + last;
    WalkConcat(fs, fs.root, comps[..|comps| - 1], last, MAX_SYMLINK_DEPTH, followFinal);
    WalkStep(fs, dir, last, budget, followFinal);
    assert last[1..] == [];
    WalkEnd(fs, entry.fh, budget, followFinal);
  }

  // --- The budget -------------------------------------------------------------------------

  /**
   * The walk without any limit, one round of the worklist at a time, counting the links met.
   * `Stuck` is an answer of the server that ends the walk.
   */
  datatype Config =
    | Going(cur: ObjId, comps: seq<string>, crossed: nat)
    | Arrived(obj: ObjId, crossed: nat)
    | Stuck(error: Error, crossed: nat)

  function Advance(fs: Fs, c: Config, followFinal: bool): Config {
    if !c.Going? then c
    else if c.comps == [] then Arrived(c.cur, c.crossed)
    else
      var rest := c.comps[1..];
      if c.comps[0] == "." then c.(comps := rest)
      else
        match fs.Lookup(c.cur, c.comps[0])
        case Err(e) => Stuck(e, c.crossed)
        case Ok(entry) =>
          if entry.symlink && (rest != [] || followFinal) then
            match fs.Readlink(entry.fh)
            case Err(e) => Stuck(e, c.crossed + 1)
            case Ok(target) =>
              Going(Start(fs, c.cur, target), SplitComponents(target) + rest, c.crossed + 1)
          else Going(entry.fh, rest, c.crossed)
  }

  function After(fs: Fs, c: Config, followFinal: bool, n: nat): Config
    decreases n
  {
    if n == 0 then c else After(fs, Advance(fs, c, followFinal), followFinal, n - 1)
  }

  /** The unlimited walk from the root, after `n` rounds. */
  function Unlimited(fs: Fs, path: string, followFinal: bool, n: nat): Config {
    After(fs, Going(fs.root, SplitComponents(path), 0), followFinal, n)
  }

  lemma {:induction false} CrossedGrows(fs: Fs, c: Config, followFinal: bool, n: nat)
    ensures After(fs, c, followFinal, n).crossed >= c.crossed
    ensures !c.Going? ==> After(fs, c, followFinal, n) == c
    decreases n
  {
    if n > 0 {
      CrossedGrows(fs, Advance(fs, c, followFinal), followFinal, n - 1);
    }
  }

  /** What the resolver's answer says about the unlimited walk from the same place. */
  ghost predicate Explains(fs: Fs, c: Config, followFinal: bool, budget: nat, r: Result<Walked, Error>, n: nat) {
    var end := After(fs, c, followFinal, n);
    match r
    case Ok(w) => w.budget <= budget && end == Arrived(w.obj, c.crossed + budget - w.budget)
    case Err(e) =>
      if e == TooManySymlinks then end.crossed == c.crossed + budget + 1
      else end.Stuck? && end.error == e && end.crossed <= c.crossed + budget
  }

  lemma {:induction false} WalkExplained(fs: Fs, c: Config, followFinal: bool, budget: nat) returns (n: nat)
    requires c.Going?
    ensures Explains(fs, c, followFinal, budget, Walk(fs, c.cur, c.comps, budget, followFinal), n)
    decreases budget, |c.comps|
  {
    hide SplitComponents, Walk;
    if c.comps == [] {
      WalkEnd(fs, c.cur, budget, followFinal);
      n := 1;
      assert After(fs, c, followFinal, 1) == After(fs, Advance(fs, c, followFinal), followFinal, 0);
      return;
    }
    WalkStep(fs, c.cur, c.comps, budget, followFinal);
    var next := Advance(fs, c, followFinal);
    n := 0;
    if next.Going? && next.crossed <= c.crossed + budget {
      if next.crossed > c.crossed {
        var target := fs.Readlink(fs.Lookup(c.cur, c.comps[0]).value.fh).value;
        WalkSplice(fs, Start(fs, c.cur, target), SplitComponents(target), c.comps[1..], budget - 1, followFinal);
        n := WalkExplained(fs, next, followFinal, budget - 1);
      } else {
        n := WalkExplained(fs, next, followFinal, budget);
      }
    }
    n := n + 1;
    assert After(fs, c, followFinal, n) == After(fs, next, followFinal, n - 1);
  }

  /**
   * `TooManySymlinks` is reported exactly when the walk, left alone, would at some point have
   * crossed more than forty links; otherwise the answer is where the unlimited walk ends.
   */
  lemma {:induction false} BudgetIsExact(fs: Fs, path: string, followFinal: bool)
    ensures Resolve(fs, path, followFinal) == Err(TooManySymlinks) <==>
      exists n :: Unlimited(fs, path, followFinal, n).crossed > 40
    ensures Resolve(fs, path, followFinal).Ok? ==>
      exists n :: Unlimited(fs, path, followFinal, n).Arrived?
               && Resolve(fs, path, followFinal) == Ok(Unlimited(fs, path, followFinal, n).obj)
    ensures Resolve(fs, path, followFinal).Err? && Resolve(fs, path, followFinal).error != TooManySymlinks ==>
      exists n :: Unlimited(fs, path, followFinal, n).Stuck?
               && Resolve(fs, path, followFinal) == Err(Unlimited(fs, path, followFinal, n).error)
  {
    hide SplitComponents, Walk;
    var c := Going(fs.root, SplitComponents(path), 0);
    var n := WalkExplained(fs, c, followFinal, MAX_SYMLINK_DEPTH);
    var end := Unlimited(fs, path, followFinal, n);
    if Resolve(fs, path, followFinal) != Err(TooManySymlinks) {
      forall m: nat
        ensures Unlimited(fs, path, followFinal, m).crossed <= MAX_SYMLINK_DEPTH
      {
        if m <= n {
          AfterAfter(fs, c, followFinal, m, n - m);
          CrossedGrows(fs, Unlimited(fs, path, followFinal, m), followFinal, n - m);
        } else {
          AfterAfter(fs, c, followFinal, n, m - n);
          CrossedGrows(fs, end, followFinal, m - n);
        }
      }
    }
  }

  lemma {:induction false} AfterAfter(fs: Fs, c: Config, followFinal: bool, m: nat, k: nat)
    ensures After(fs, After(fs, c, followFinal, m), followFinal, k) == After(fs, c, followFinal, m + k)
    decreases m
  {
    if m > 0 {
      AfterAfter(fs, Advance(fs, c, followFinal), followFinal, m - 1, k);
    }
  }
}
