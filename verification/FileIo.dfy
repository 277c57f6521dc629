/**
 * Chunked reads and writes of `NfsContext` and the whole-file operations built on them, against
 * a server that keeps flat files, may serve less than it is asked for, and may restart. A file
 * has its content now and what of it survives a restart: WRITE asks for UNSTABLE storage, and
 * COMMIT makes it stable.
 */
module FileIo {
  import opened Wire
  import opened Path

  // --- Chunk sizes ------------------------------------------------------------------------

  /** `clamp_pref`. */
  function ClampPref(value: u32): nat {
    if value < 32 * 1024 then 32 * 1024 else if value > 1024 * 1024 then 1024 * 1024 else value
  }

  /** The size each backend settles on: `FSINFO`'s answer, its absence, or the NFSv4 constant. */
  function Preferred(version: int, fsinfo: Option<u32>): (chunk: nat)
    ensures 32 * 1024 <= chunk <= 1024 * 1024
    ensures version == 4 ==> chunk == 0x4_0000
    ensures version != 4 && fsinfo.None? ==> chunk == 0x1_0000
    ensures version != 4 && fsinfo.Some? ==> // the nearest size in the range
      forall other :: 0x8000 <= other <= 0x10_0000 ==> Distance(chunk, fsinfo.value) <= Distance(other, fsinfo.value)
  {
    if version == 4 then 256 * 1024
    else if fsinfo.Some? then ClampPref(fsinfo.value)
    else 64 * 1024
  }

  function Distance(a: int, b: int): nat {
    if a < b then b - a else a - b
  }

  // --- The server -------------------------------------------------------------------------

  const NFSERR_NOENT: int := 2
  const NFSERR_EXIST: int := 17
  const NFSERR_STALE: int := 70

  datatype File = File(now: Bytes, stable: Bytes)

  datatype Store = Store(root: ObjId, entries: map<(ObjId, string), Entry>, links: map<ObjId, string>, files: map<ObjId, File>)

  function View(st: Store): Fs {
    Fs(st.root,
       (d, n) => if (d, n) in st.entries then Ok(st.entries[(d, n)]) else Err(NFSERR_NOENT),
       o => if o in st.links then Ok(st.links[o]) else Err(NFSERR_STALE))
  }

  /** What is left after a restart. */
  function Restarted(st: Store): Store {
    st.(files := map fh | fh in st.files :: File(st.files[fh].stable, st.files[fh].stable))
  }

  /**
   * How the server treats the next request, possibly after a restart: it refuses it, or serves
   * at most `most` bytes of it, announces end of file only if `tellsEof`, has the file on stable
   * storage if it `flushes`, and names a new file `handle`.
   */
  datatype Mood =
    | Refuses(code: int, restarted: bool)
    | Serves(most: nat, tellsEof: bool, flushes: bool, handle: ObjId, restarted: bool)

  datatype World = World(store: Store, script: seq<Mood>)

  function Mood0(script: seq<Mood>): Mood {
    if script == [] then Refuses(NFSERR_STALE, false) else script[0]
  }

  function Rest(script: seq<Mood>): seq<Mood> {
    if script == [] then [] else script[1..]
  }

  /** The world as the next request finds it. */
  function Begun(w: World): World {
    World(if Mood0(w.script).restarted then Restarted(w.store) else w.store, Rest(w.script))
  }

  /** No restart is to come. */
  predicate Calm(script: seq<Mood>) {
    forall i :: 0 <= i < |script| ==> !script[i].restarted
  }

  /** Nothing that a restart would lose. */
  predicate Settled(st: Store) {
    forall fh :: fh in st.files ==> st.files[fh].now == st.files[fh].stable
  }

  predicate Quiet(w: World) {
    Calm(w.script) || Settled(w.store)
  }

  /** No restart can change this file. */
  predicate Steady(w: World, fh: ObjId) {
    Calm(w.script) || (fh in w.store.files ==> w.store.files[fh].now == w.store.files[fh].stable)
  }

  lemma {:induction false} SteadyKept(w: World, fh: ObjId)
    requires Steady(w, fh)
    ensures Steady(Begun(w), fh) && (fh in Begun(w).store.files <==> fh in w.store.files)
    ensures fh in w.store.files ==> Begun(w).store.files[fh] == w.store.files[fh]
  {
  }

  lemma {:induction false} QuietIsSteady(w: World, fh: ObjId)
    requires Quiet(w)
    ensures Steady(w, fh)
  {
  }

  lemma {:induction false} QuietKept(w: World)
    requires Quiet(w)
    ensures Quiet(Begun(w)) && Begun(w).store == w.store
  {
    if !Calm(w.script) && Mood0(w.script).restarted {
      assert Restarted(w.store).files == w.store.files;
    }
  }

  function Min(a: nat, b: nat): nat {
    if a < b then a else b
  }

  /** The bytes a reader of `count` bytes at `offset` should see. */
  function Window(file: Bytes, offset: nat, count: nat): Bytes {
    file[Min(offset, |file|)..Min(offset + count, |file|)]
  }

  /** Byte by byte: what is there of the `count` bytes from `offset` on. */
  lemma {:induction false} WindowBytes(file: Bytes, offset: nat, count: nat)
    ensures var w := Window(file, offset, count);
      && |w| == (if offset >= |file| then 0 else if offset + count <= |file| then count else |file| - offset)
      && forall i :: 0 <= i < |w| ==> w[i] == file[offset + i]
  {
  }

  lemma {:induction false} WindowStart(file: Bytes, offset: nat)
    ensures Window(file, offset, 0) == []
  {
  }

  lemma {:induction false} WindowConcat(file: Bytes, offset: nat, a: nat, b: nat)
    requires |Window(file, offset, a)| == a
    ensures Window(file, offset, a) + Window(file, offset + a, b) == Window(file, offset, a + b)
  {
  }

  lemma {:induction false} WindowEnd(file: Bytes, offset: nat, a: nat, b: nat)
    requires a <= b && offset + a >= |file|
    ensures Window(file, offset, a) == Window(file, offset, b)
  {
  }

  /** The mood of the `i`-th request from here; a server that is gone refuses. */
  function MoodAt(script: seq<Mood>, i: nat): Mood {
    if i < |script| then script[i] else Refuses(NFSERR_STALE, false)
  }

  function Skip(script: seq<Mood>, n: nat): seq<Mood> {
    if n <= |script| then script[n..] else []
  }

  /** Why a READ fails: it is refused, or there is no such file. */
  predicate ReadFails(st: Store, fh: ObjId, mood: Mood, error: Error) {
    (mood.Refuses? && error == Backend(mood.code)) || (mood.Serves? && fh !in st.files && error == Backend(70))
  }

  lemma {:induction false} ReadOutcome(w: World, script: seq<Mood>, n: nat, fh: ObjId, offset: nat, count: nat)
    requires w.script == Skip(script, n)
    ensures var r := Read(w, fh, offset, count);
      && Begun(w).script == Skip(script, n + 1) && (fh in Begun(w).store.files <==> fh in w.store.files)
      && (r.Ok? ==> MoodAt(script, n).Serves?)
      && (r.Err? ==> ReadFails(w.store, fh, MoodAt(script, n), Backend(r.error)))
  {
    hide Window;
  }

  /** READ (section 3.3.6 of RFC 1813): possibly short, but never empty before end of file. */
  function Read(w: World, fh: ObjId, offset: nat, count: nat): (r: Result<(Bytes, bool), int>)
    ensures r.Ok? ==> |r.value.0| <= count && fh in Begun(w).store.files
    ensures r.Ok? ==> r.value.0 == Window(Begun(w).store.files[fh].now, offset, |r.value.0|)
    ensures r.Ok? && (r.value.1 || (r.value.0 == [] && count > 0)) ==>
      offset + |r.value.0| >= |Begun(w).store.files[fh].now|
  {
    var mood, st := Mood0(w.script), Begun(w).store;
    if mood.Refuses? then Err(mood.code)
    else if fh !in st.files then Err(NFSERR_STALE)
    else
      var file := st.files[fh].now;
      var data := Window(file, offset, if mood.most == 0 then Min(1, count) else Min(mood.most, count));
      Ok((data, mood.tellsEof && offset + |data| >= |file|))
  }

  /** A file with `data` written at `offset`; a gap reads as zeros. */
  function Overlay(file: Bytes, offset: nat, data: Bytes): Bytes {
    if data == [] then file
    else
      var base := if |file| < offset then file + Zeros(offset - |file|) else file;
      base[..offset] + data + if offset + |data| < |base| then base[offset + |data|..] else []
  }

  /** Byte by byte: the data where it goes, the file elsewhere, zeros in between. */
  lemma {:induction false} OverlayBytes(file: Bytes, offset: nat, data: Bytes)
    ensures data == [] ==> Overlay(file, offset, data) == file
    ensures data != [] ==>
      var r := Overlay(file, offset, data);
      && |r| == (if offset + |data| > |file| then offset + |data| else |file|)
      && forall i :: 0 <= i < |r| ==>
           r[i] == if offset <= i < offset + |data| then data[i - offset] else if i < |file| then file[i] else 0
  {
  }

  function Stored(w: World, fh: ObjId, file: File): World {
    w.(store := w.store.(files := w.store.files[fh := file]))
  }

  /** WRITE, UNSTABLE (section 3.3.7 of RFC 1813): the count says how much was written. */
  function Write(w: World, fh: ObjId, offset: nat, data: Bytes): (r: (Result<nat, int>, World))
    ensures r.0.Ok? ==> r.0.value <= |data|
  {
    var mood, w' := Mood0(w.script), Begun(w);
    if mood.Refuses? then (Err(mood.code), w')
    else if fh !in w'.store.files then (Err(NFSERR_STALE), w')
    else
      var n := Min(mood.most, |data|);
      var file := w'.store.files[fh];
      var now := Overlay(file.now, offset, data[..n]);
      (Ok(n), Stored(w', fh, File(now, if mood.flushes then now else file.stable)))
  }

  /** COMMIT: what is there now becomes stable. */
  function Commit(w: World, fh: ObjId): (Result<(), int>, World) {
    var mood, w' := Mood0(w.script), Begun(w);
    if mood.Refuses? then (Err(mood.code), w')
    else if fh !in w'.store.files then (Err(NFSERR_STALE), w')
    else (Ok(()), Stored(w', fh, File(w'.store.files[fh].now, w'.store.files[fh].now)))
  }

  /** UNCHECKED create: an existing plain file is opened, a missing one is made, empty. */
  function Create(w: World, dir: ObjId, name: string): (Result<ObjId, int>, World) {
    var mood, w' := Mood0(w.script), Begun(w);
    if mood.Refuses? then (Err(mood.code), w')
    else if (dir, name) in w'.store.entries then
      var entry := w'.store.entries[(dir, name)];
      if entry.symlink || entry.fh !in w'.store.files then (Err(NFSERR_EXIST), w') else (Ok(entry.fh), w')
    else if mood.handle in w'.store.files then (Err(NFSERR_EXIST), w')
    else
      (Ok(mood.handle),
       w'.(store := w'.store.(entries := w'.store.entries[(dir, name) := Entry(mood.handle, false)],
                              files := w'.store.files[mood.handle := File([], [])])))
  }

  /** SETATTR of the size, which is stable at once. */
  function Truncate(w: World, fh: ObjId): (Result<(), int>, World) {
    var mood, w' := Mood0(w.script), Begun(w);
    if mood.Refuses? then (Err(mood.code), w')
    else if fh !in w'.store.files then (Err(NFSERR_STALE), w')
    else (Ok(()), Stored(w', fh, File([], [])))
  }

  /** Requests whose only effect here is success or failure (GETATTR, CLOSE). */
  function Ping(w: World): (Result<(), int>, World) {
    (if Mood0(w.script).Refuses? then Err(Mood0(w.script).code) else Ok(()), Begun(w))
  }

  /** The backend's `close`: a request in NFSv4, nothing in NFSv3. */
  function Closing(w: World, version: int): (Result<(), int>, World) {
    if version == 4 then Ping(w) else (Ok(()), w)
  }

  // --- Writing in chunks ------------------------------------------------------------------

  /** `pwrite` as a recursion over the chunks: bytes written, and the world afterwards. */
  function WriteAll(w: World, fh: ObjId, offset: nat, data: Bytes, chunk: nat): (Result<nat, int>, World)
    requires chunk > 0
    decreases |data|
  {
    if data == [] then (Ok(0), w)
    else
      var k := Min(chunk, |data|);
      var (r, w') := Write(w, fh, offset, data[..k]);
      if r.Err? then (r, w')
      else if r.value < k then (r, w')
      else
        var (more, w'') := WriteAll(w', fh, offset + k, data[k..], chunk);
        (if more.Ok? then Ok(k + more.value) else more, w'')
  }

  lemma {:induction false} OverlayConcat(file: Bytes, offset: nat, a: Bytes, b: Bytes)
    ensures Overlay(Overlay(file, offset, a), offset + |a|, b) == Overlay(file, offset, a + b)
  {
    if a == [] {
      assert a + b == b;
    } else if b == [] {
      assert a + b == a;
    } else {
      var once := Overlay(file, offset, a);
      var base := if |file| < offset then file + Zeros(offset - |file|) else file;
      assert once[..offset + |a|] == base[..offset] + a;
      assert base[..offset] + a + b == base[..offset] + (a + b);
      if offset + |a| + |b| < |once| {
        assert once[offset + |a| + |b|..] == base[offset + |a| + |b|..];
      }
    }
  }

  /** Only this file changes, and its content by exactly a prefix of the data. */
  ghost predicate Wrote(w: World, w': World, fh: ObjId, offset: nat, data: Bytes, n: nat) {
    && n <= |data|
    && (n > 0 ==> fh in w.store.files)
    && (fh in w.store.files ==>
          && fh in w'.store.files
          && w'.store == w.store.(files := w.store.files[fh := w'.store.files[fh]])
          && w'.store.files[fh].now == Overlay(w.store.files[fh].now, offset, data[..n]))
    && (fh !in w.store.files ==> w'.store == w.store)
  }

  /** One WRITE of the first `k` bytes, without a restart. */
  lemma {:induction false} WriteOverlays(w: World, fh: ObjId, offset: nat, data: Bytes, k: nat)
    requires k <= |data| && Calm(w.script)
    ensures var (r, w') := Write(w, fh, offset, data[..k]);
      && Calm(w'.script)
      && (r.Ok? ==> fh in w.store.files)
      && Wrote(w, w', fh, offset, data, if r.Ok? then r.value else 0)
  {
    hide Overlay;
    QuietKept(w);
    var (r, w') := Write(w, fh, offset, data[..k]);
    assert data[..0] == [];
    NoOverlay(w.store, fh, offset);
    if r.Ok? {
      assert data[..k][..r.value] == data[..r.value];
    }
  }

  lemma {:induction false} NoOverlay(st: Store, fh: ObjId, offset: nat)
    ensures fh in st.files ==> Overlay(st.files[fh].now, offset, []) == st.files[fh].now
    ensures fh in st.files ==> st.files == st.files[fh := st.files[fh]]
  {
  }

  lemma {:induction false} WroteNothing(w: World, fh: ObjId, offset: nat, data: Bytes)
    ensures Wrote(w, w, fh, offset, data, 0)
  {
    hide Overlay;
    assert data[..0] == [];
    NoOverlay(w.store, fh, offset);
  }

  lemma {:induction false} WroteConcat(w: World, w': World, w'': World, fh: ObjId, offset: nat, data: Bytes, k: nat, m: nat)
    requires fh in w.store.files && k <= |data|
    requires Wrote(w, w', fh, offset, data, k) && Wrote(w', w'', fh, offset + k, data[k..], m)
    ensures Wrote(w, w'', fh, offset, data, k + m)
  {
    hide Overlay;
    OverlayConcat(w.store.files[fh].now, offset, data[..k], data[k..][..m]);
    assert data[..k] + data[k..][..m] == data[..k + m];
    var file := w''.store.files[fh];
    assert w'.store.files[fh := file] == w.store.files[fh := file];
  }

  /**
   * `pwrite` leaves the file overlaid with exactly the first `written` bytes, whatever the
   * server cut short; after an error, with some prefix.
   */
  lemma {:induction false} WriteAllOverlays(w: World, fh: ObjId, offset: nat, data: Bytes, chunk: nat) returns (n: nat)
    requires chunk > 0 && Calm(w.script)
    ensures var (r, w') := WriteAll(w, fh, offset, data, chunk);
      Wrote(w, w', fh, offset, data, n) && (r.Ok? ==> r.value == n && (data != [] ==> fh in w.store.files))
    decreases |data|
  {
    hide Overlay, Calm, Write, Wrote;
    if data == [] {
      n := 0;
      WroteNothing(w, fh, offset, data);
      return;
    }
    var k := Min(chunk, |data|);
    var (r, w') := Write(w, fh, offset, data[..k]);
    WriteOverlays(w, fh, offset, data, k);
    n := if r.Ok? then r.value else 0;
    if r == Ok(k) {
      var more := WriteAllOverlays(w', fh, offset + k, data[k..], chunk);
      n := k + more;
      WroteConcat(w, w', WriteAll(w', fh, offset + k, data[k..], chunk).1, fh, offset, data, k, more);
    }
  }

  /** `pwrite` chunk by chunk: stop at an error or a short write, else go on after the chunk. */
  lemma {:induction false} WriteAllStep(w: World, fh: ObjId, offset: nat, data: Bytes, chunk: nat)
    requires chunk > 0
    ensures data == [] ==> WriteAll(w, fh, offset, data, chunk) == (Ok(0), w)
    ensures data != [] ==>
      var piece := if |data| <= chunk then data else data[..chunk];
      var (r, w') := Write(w, fh, offset, piece);
      && (r.Err? || r.value < |piece| ==> WriteAll(w, fh, offset, data, chunk) == (r, w'))
      && (r == Ok(|piece|) ==>
            var (more, w'') := WriteAll(w', fh, offset + |piece|, data[|piece|..], chunk);
            WriteAll(w, fh, offset, data, chunk) == (if more.Ok? then Ok(|piece| + more.value) else Err(more.error), w''))
  {
    hide Write;
    if data != [] && |data| <= chunk {
      assert data[..|data|] == data;
    }
  }

  /** The first WRITE that is refused before one is cut short, and how the server goes on. */
  function Refusal(script: seq<Mood>, len: nat, chunk: nat): Option<int>
    requires chunk > 0
    decreases len
  {
    if len == 0 then None
    else
      var mood, k := Mood0(script), Min(chunk, len);
      if mood.Refuses? then Some(mood.code) else if mood.most < k then None else Refusal(Rest(script), len - k, chunk)
  }

  function AfterWrites(script: seq<Mood>, len: nat, chunk: nat): seq<Mood>
    requires chunk > 0
    decreases len
  {
    if len == 0 then script
    else
      var mood, k := Mood0(script), Min(chunk, len);
      if mood.Refuses? || mood.most < k then Rest(script) else AfterWrites(Rest(script), len - k, chunk)
  }

  lemma {:induction false} WriteAllOutcome(w: World, fh: ObjId, offset: nat, data: Bytes, chunk: nat)
    requires chunk > 0 && fh in w.store.files
    ensures var (r, w') := WriteAll(w, fh, offset, data, chunk);
      && w'.script == AfterWrites(w.script, |data|, chunk) && fh in w'.store.files
      && match Refusal(w.script, |data|, chunk)
         case Some(code) => r == Err(code)
         case None => r.Ok?
    decreases |data|
  {
    hide Overlay;
    if data != [] {
      var k := Min(chunk, |data|);
      var (r, w') := Write(w, fh, offset, data[..k]);
      if r.Ok? && r.value == k {
        WriteAllOutcome(w', fh, offset + k, data[k..], chunk);
      }
    }
  }

  // --- Writing a file from scratch --------------------------------------------------------

  predicate Zero(b: Bytes) {
    forall i :: 0 <= i < |b| ==> b[i] == 0
  }

  /**
   * Whether a file gets its first `|data|` bytes, `pos` of them written so far and `stable` of
   * those stable: no WRITE may be refused or cut short, and a restart in between may lose only
   * zeros, which the gap that the next WRITE leaves restores. Then, how many bytes are stable,
   * and how the server goes on.
   */
  function Progress(script: seq<Mood>, data: Bytes, pos: nat, stable: nat, chunk: nat): (r: Option<(nat, seq<Mood>)>)
    requires chunk > 0 && stable <= pos <= |data|
    ensures r.Some? ==> r.value.0 <= |data|
    decreases |data| - pos
  {
    if pos == |data| then Some((stable, script))
    else
      var mood := Mood0(script);
      var k := Min(chunk, |data| - pos);
      if mood.Refuses? || mood.most < k || (mood.restarted && !Zero(data[stable..pos])) then None
      else Progress(Rest(script), data, pos + k, if mood.flushes then pos + k else stable, chunk)
  }

  lemma {:induction false} OverlayNext(data: Bytes, from: nat, pos: nat, k: nat)
    requires from <= pos && 0 < k && pos + k <= |data| && Zero(data[from..pos])
    ensures Overlay(data[..from], pos, data[pos..][..k]) == data[..pos + k]
  {
    var base := if from < pos then data[..from] + Zeros(pos - from) else data[..from];
    assert base == data[..pos] by {
      assert forall i :: from <= i < pos ==> data[i] == data[from..pos][i - from];
    }
    assert data[pos..][..k] == data[pos..pos + k];
    assert base[..pos] + data[pos..pos + k] + [] == data[..pos + k];
  }

  /** One chunk taken whole, nothing but zeros lost. */
  lemma {:induction false} ChunkKept(w: World, fh: ObjId, data: Bytes, pos: nat, stable: nat, k: nat)
    requires fh in w.store.files && stable <= pos && 0 < k && pos + k <= |data|
    requires w.store.files[fh] == File(data[..pos], data[..stable])
    requires var mood := Mood0(w.script); mood.Serves? && mood.most >= k && (mood.restarted ==> Zero(data[stable..pos]))
    ensures var (r, w') := Write(w, fh, pos, data[pos..][..k]);
      && r == Ok(k) && w'.script == Rest(w.script) && fh in w'.store.files
      && w'.store.files[fh] == File(data[..pos + k], data[..if Mood0(w.script).flushes then pos + k else stable])
  {
    hide Overlay, Zero;
    assert Zero(data[pos..pos]) by { NoZeros(data, pos); }
    OverlayNext(data, pos, pos, k);
    if Mood0(w.script).restarted {
      OverlayNext(data, stable, pos, k);
    }
    assert data[pos..][..k][..k] == data[pos..][..k];
  }

  lemma {:induction false} NoZeros(data: Bytes, pos: nat)
    requires pos <= |data|
    ensures Zero(data[pos..pos])
  {
  }

  lemma {:induction false} ProgressKeeps(w: World, fh: ObjId, data: Bytes, pos: nat, stable: nat, chunk: nat)
    requires chunk > 0 && stable <= pos <= |data| && Progress(w.script, data, pos, stable, chunk).Some?
    requires fh in w.store.files && w.store.files[fh] == File(data[..pos], data[..stable])
    ensures var (s, rest) := Progress(w.script, data, pos, stable, chunk).value;
      var (r, w') := WriteAll(w, fh, pos, data[pos..], chunk);
      && r == Ok(|data| - pos) && w'.script == rest
      && fh in w'.store.files && w'.store.files[fh] == File(data, data[..s])
    decreases |data| - pos
  {
    hide Overlay, Zero, Write;
    if pos == |data| {
      assert data[..pos] == data;
    } else {
      var k := Min(chunk, |data| - pos);
      ChunkKept(w, fh, data, pos, stable, k);
      var (_, w') := Write(w, fh, pos, data[pos..][..k]);
      ProgressKeeps(w', fh, data, pos + k, if Mood0(w.script).flushes then pos + k else stable, chunk);
      assert data[pos..][k..] == data[pos + k..];
    }
  }

  /** Byte `i` is missing from the content, or zero. */
  predicate Scar(content: Bytes, i: nat) {
    |content| <= i || content[i] == 0
  }

  predicate Scarred(st: Store, fh: ObjId, i: nat) {
    fh in st.files && Scar(st.files[fh].now, i) && Scar(st.files[fh].stable, i)
  }

  lemma {:induction false} OverlayScar(content: Bytes, offset: nat, data: Bytes, i: nat)
    requires i < offset && Scar(content, i)
    ensures Scar(Overlay(content, offset, data), i)
  {
  }

  lemma {:induction false} WriteScar(w: World, fh: ObjId, offset: nat, data: Bytes, i: nat)
    requires i < offset && Scarred(w.store, fh, i)
    ensures Scarred(Write(w, fh, offset, data).1.store, fh, i)
  {
    hide Overlay, Scar;
    if Mood0(w.script).Serves? {
      var n := Min(Mood0(w.script).most, |data|);
      OverlayScar(w.store.files[fh].now, offset, data[..n], i);
      OverlayScar(w.store.files[fh].stable, offset, data[..n], i);
    }
  }

  /** What was lost before the current position is never written again. */
  lemma {:induction false} ScarStays(w: World, fh: ObjId, offset: nat, data: Bytes, chunk: nat, i: nat)
    requires chunk > 0 && i < offset && Scarred(w.store, fh, i)
    ensures Scarred(WriteAll(w, fh, offset, data, chunk).1.store, fh, i)
    decreases |data|
  {
    hide Scarred, Write;
    if data != [] {
      var k := Min(chunk, |data|);
      WriteScar(w, fh, offset, data[..k], i);
      var (r, w') := Write(w, fh, offset, data[..k]);
      if r.Ok? && r.value == k {
        ScarStays(w', fh, offset + k, data[k..], chunk, i);
      }
    }
  }

  /** Neither the content nor its stable part is the data. */
  predicate Damaged(st: Store, fh: ObjId, data: Bytes) {
    fh in st.files && st.files[fh].now != data && st.files[fh].stable != data
  }

  lemma {:induction false} ScarIsDamage(st: Store, fh: ObjId, data: Bytes, i: nat)
    requires Scarred(st, fh, i) && i < |data| && data[i] != 0
    ensures Damaged(st, fh, data)
  {
  }

  lemma {:induction false} OverlayLength(content: Bytes, offset: nat, data: Bytes)
    ensures |Overlay(content, offset, data)| <= if |content| > offset + |data| then |content| else offset + |data|
  {
  }

  /** A WRITE cut short leaves the file too short. */
  lemma {:induction false} ShortIsDamage(w: World, fh: ObjId, data: Bytes, pos: nat, stable: nat, k: nat)
    requires fh in w.store.files && stable <= pos && 0 < k && pos + k <= |data|
    requires w.store.files[fh] == File(data[..pos], data[..stable])
    requires Mood0(w.script).Serves? && Mood0(w.script).most < k
    ensures Damaged(Write(w, fh, pos, data[pos..][..k]).1.store, fh, data)
  {
    hide Overlay;
    var n := Mood0(w.script).most;
    OverlayLength(data[..pos], pos, data[pos..][..k][..n]);
    OverlayLength(data[..stable], pos, data[pos..][..k][..n]);
  }

  /** A restart that loses a byte other than zero leaves a scar. */
  lemma {:induction false} LossIsScar(w: World, fh: ObjId, data: Bytes, pos: nat, stable: nat, k: nat) returns (i: nat)
    requires fh in w.store.files && stable <= pos && 0 < k && pos + k <= |data|
    requires w.store.files[fh] == File(data[..pos], data[..stable])
    requires var mood := Mood0(w.script); mood.Serves? && mood.most >= k && mood.restarted && !Zero(data[stable..pos])
    ensures i < pos && data[i] != 0 && Scarred(Write(w, fh, pos, data[pos..][..k]).1.store, fh, i)
    ensures Write(w, fh, pos, data[pos..][..k]).0 == Ok(k)
  {
    hide Overlay;
    var j :| 0 <= j < |data[stable..pos]| && data[stable..pos][j] != 0;
    i := stable + j;
    OverlayScar(data[..stable], pos, data[pos..][..k][..k], i);
  }

  lemma {:induction false} ProgressFails(w: World, fh: ObjId, data: Bytes, pos: nat, stable: nat, chunk: nat)
    requires chunk > 0 && stable <= pos <= |data| && Progress(w.script, data, pos, stable, chunk).None?
    requires fh in w.store.files && w.store.files[fh] == File(data[..pos], data[..stable])
    ensures var (r, w') := WriteAll(w, fh, pos, data[pos..], chunk);
      r.Ok? ==> Damaged(w'.store, fh, data)
    decreases |data| - pos
  {
    hide Overlay, Zero, Write, Damaged, Scarred;
    var k := Min(chunk, |data| - pos);
    var mood := Mood0(w.script);
    var (r, w') := Write(w, fh, pos, data[pos..][..k]);
    assert data[pos..][k..] == data[pos + k..];
    if mood.Refuses? {
      RefusedWrite(w, fh, pos, data[pos..][..k]);
    } else if mood.most < k {
      ShortIsDamage(w, fh, data, pos, stable, k);
      ShortWrite(w, fh, pos, data[pos..][..k]);
    } else if mood.restarted && !Zero(data[stable..pos]) {
      var i := LossIsScar(w, fh, data, pos, stable, k);
      ScarStays(w', fh, pos + k, data[pos + k..], chunk, i);
      ScarIsDamage(WriteAll(w', fh, pos + k, data[pos + k..], chunk).1.store, fh, data, i);
    } else {
      ChunkKept(w, fh, data, pos, stable, k);
      ProgressFails(w', fh, data, pos + k, if mood.flushes then pos + k else stable, chunk);
    }
  }

  lemma {:induction false} RefusedWrite(w: World, fh: ObjId, offset: nat, data: Bytes)
    requires Mood0(w.script).Refuses?
    ensures Write(w, fh, offset, data).0.Err?
  {
  }

  lemma {:induction false} ShortWrite(w: World, fh: ObjId, offset: nat, data: Bytes)
    requires Mood0(w.script).Serves? && Mood0(w.script).most < |data|
    ensures var r := Write(w, fh, offset, data).0; r.Ok? ==> r.value < |data|
  {
  }

  // --- Whole files ------------------------------------------------------------------------

  /** The directory and name that `resolve_parent` yields. */
  function Target(st: Store, path: string): Result<(ObjId, string), Error> {
    var comps := SplitComponents(path);
    if comps == [] then Err(InvalidPath)
    else
      var w :- Walk(View(st), st.root, comps[..|comps| - 1], MAX_SYMLINK_DEPTH, true);
      Ok((w.obj, comps[|comps| - 1]))
  }

  /** After `create` and truncation: the file's handle, and the store it is empty in. */
  ghost predicate Emptied(before: Store, after: Store, path: string, fh: ObjId) {
    && Target(before, path).Ok?
    && var (dir, name) := Target(before, path).value;
    && (dir, name) in after.entries && after.entries[(dir, name)] == Entry(fh, false)
    && ((dir, name) in before.entries ==> after.entries == before.entries)
    && ((dir, name) !in before.entries ==> after.entries == before.entries[(dir, name) := Entry(fh, false)])
    && after.root == before.root && after.links == before.links
    && fh in after.files && after.files[fh] == File([], [])
  }

  /** `open` with `create_write` flags, as a function of the world. */
  function CreateFileSpec(w: World, path: string): (Result<ObjId, Error>, World) {
    match Target(w.store, path)
    case Err(e) => (Err(e), w)
    case Ok((dir, name)) =>
      var (made, w1) := Create(w, dir, name);
      if made.Err? then (Err(Backend(made.error)), w1)
      else
        var (cut, w2) := Truncate(w1, made.value);
        (if cut.Err? then Err(Backend(cut.error)) else Ok(made.value), w2)
  }

  /** `write_whole`: create, write, commit and close; the byte count and the commit are ignored. */
  function WriteWholeSpec(w: World, path: string, data: Bytes, chunk: nat, version: int): (Result<(), Error>, World)
    requires chunk > 0
  {
    var (file, w1) := CreateFileSpec(w, path);
    if file.Err? then (Err(file.error), w1)
    else
      var (written, w2) := WriteAll(w1, file.value, 0, data, chunk);
      var (closed, w3) := Closing(Commit(w2, file.value).1, version);
      (if closed.Err? then Err(Backend(closed.error))
       else if written.Err? then Err(Backend(written.error)) else Ok(()), w3)
  }

  /** UNCHECKED create has nothing against the name. */
  predicate Creatable(st: Store, target: (ObjId, string), handle: ObjId) {
    if target in st.entries then !st.entries[target].symlink && st.entries[target].fh in st.files else handle !in st.files
  }

  /**
   * What `write_whole` returns, exactly: it succeeds if and only if the path has a parent, CREATE
   * and the truncation are served, no WRITE is refused before one is cut short, and CLOSE, in
   * NFSv4, is served. Otherwise the error is that of CLOSE if that fails, or else that of the
   * first request refused. What COMMIT says does not matter.
   */
  lemma {:induction false} WriteWholeOutcome(w: World, path: string, data: Bytes, chunk: nat, version: int)
    requires chunk > 0
    ensures var r := WriteWholeSpec(w, path, data, chunk, version).0;
      match Target(w.store, path)
      case Err(e) => r == Err(e)
      case Ok(target) =>
        var create, truncate := Mood0(w.script), Mood0(Rest(w.script));
        if create.Refuses? then r == Err(Backend(create.code))
        else if !Creatable(w.store, target, create.handle) then r == Err(Backend(17))
        else if truncate.Refuses? then r == Err(Backend(truncate.code))
        else
          var script := Rest(Rest(w.script));
          var refusal, close := Refusal(script, |data|, chunk), Mood0(Rest(AfterWrites(script, |data|, chunk)));
          if version == 4 && close.Refuses? then r == Err(Backend(close.code))
          else r == if refusal.Some? then Err(Backend(refusal.value)) else Ok(())
  {
    hide Target, WriteAll, Refusal, AfterWrites;
    var (file, w1) := CreateFileSpec(w, path);
    CreateOutcome(w, path);
    hide CreateFileSpec;
    if file.Ok? {
      WriteAllOutcome(w1, file.value, 0, data, chunk);
    }
  }

  lemma {:induction false} CreateOutcome(w: World, path: string)
    ensures var (r, w') := CreateFileSpec(w, path);
      match Target(w.store, path)
      case Err(e) => r == Err(e)
      case Ok(target) =>
        var create, truncate := Mood0(w.script), Mood0(Rest(w.script));
        if create.Refuses? then r == Err(Backend(create.code))
        else if !Creatable(w.store, target, create.handle) then r == Err(Backend(17))
        else if truncate.Refuses? then r == Err(Backend(truncate.code))
        else r.Ok? && r.value in w'.store.files && w'.script == Rest(Rest(w.script))
  {
    hide Target;
  }

  lemma {:induction false} CreatedEmpty(w: World, path: string)
    requires CreateFileSpec(w, path).0.Ok?
    ensures var (file, w') := CreateFileSpec(w, path); Emptied(w.store, w'.store, path, file.value)
  {
    hide Walk, SplitComponents;
  }

  /** The rest of the way: `stable` of `len` bytes are on stable storage, then COMMIT and CLOSE. */
  predicate StillThere(script: seq<Mood>, len: nat, stable: nat, version: int) {
    || stable == len
    || (!Mood0(script).restarted && (Mood0(script).Serves? || version != 4 || !Mood0(Rest(script)).restarted))
  }

  predicate MadeStable(script: seq<Mood>, len: nat, stable: nat) {
    stable == len || (!Mood0(script).restarted && Mood0(script).Serves?)
  }

  /** COMMIT and CLOSE cannot mend a damaged file, nor harm one that is stable. */
  lemma {:induction false} Finishing(w: World, fh: ObjId, data: Bytes, stable: nat, version: int)
    requires fh in w.store.files && stable <= |data|
    ensures var st := Closing(Commit(w, fh).1, version).1.store;
      && fh in st.files
      && (Damaged(w.store, fh, data) ==> Damaged(st, fh, data))
      && (w.store.files[fh] == File(data, data[..stable]) ==>
            && (st.files[fh].now == data <==> StillThere(w.script, |data|, stable, version))
            && (st.files[fh].stable == data <==> MadeStable(w.script, |data|, stable)))
  {
    assert stable == |data| ==> data[..stable] == data;
    assert stable < |data| ==> |data[..stable]| != |data|;
  }

  /**
   * Exactly when `write_whole` keeps its promise. Whenever it succeeds, the file holds the data
   * if and only if the server took every chunk whole and lost nothing but zeros before the end,
   * and the data survives the next restart if and only if COMMIT got it all.
   */
  lemma {:induction false} WriteWholeComplete(w: World, path: string, data: Bytes, chunk: nat, version: int)
    requires chunk > 0 && WriteWholeSpec(w, path, data, chunk, version).0.Ok?
    ensures var (file, created) := CreateFileSpec(w, path);
      var after := WriteWholeSpec(w, path, data, chunk, version).1.store;
      var p := Progress(created.script, data, 0, 0, chunk);
      && file.Ok? && file.value in after.files
      && (after.files[file.value].now == data <==> p.Some? && StillThere(p.value.1, |data|, p.value.0, version))
      && (after.files[file.value].stable == data <==> p.Some? && MadeStable(p.value.1, |data|, p.value.0))
  {
    hide CreateFileSpec, WriteAll, Progress, Commit, Closing, Target, StillThere, MadeStable;
    var (file, w1) := CreateFileSpec(w, path);
    CreatedEmpty(w, path);
    assert data[0..] == data && data[..0] == [];
    if Progress(w1.script, data, 0, 0, chunk).Some? {
      ProgressKeeps(w1, file.value, data, 0, 0, chunk);
      Finishing(WriteAll(w1, file.value, 0, data, chunk).1, file.value, data, Progress(w1.script, data, 0, 0, chunk).value.0, version);
    } else {
      ProgressFails(w1, file.value, data, 0, 0, chunk);
      Finishing(WriteAll(w1, file.value, 0, data, chunk).1, file.value, data, 0, version);
    }
  }

  /** After a write of the whole file, the path names a plain file with some content. */
  ghost predicate Holds(before: Store, after: Store, path: string, fh: ObjId) {
    && Target(before, path).Ok?
    && var (dir, name) := Target(before, path).value;
    && (dir, name) in after.entries && after.entries[(dir, name)] == Entry(fh, false)
    && Extends(View(before), View(after))
    && fh in after.files
  }

  lemma {:induction false} WriteWholeHolds(w: World, path: string, data: Bytes, chunk: nat, version: int)
    requires chunk > 0 && WriteWholeSpec(w, path, data, chunk, version).0.Ok?
    ensures CreateFileSpec(w, path).0.Ok?
    ensures Holds(w.store, WriteWholeSpec(w, path, data, chunk, version).1.store, path, CreateFileSpec(w, path).0.value)
  {
    hide CreateFileSpec, WriteAll, Target;
    var (file, w1) := CreateFileSpec(w, path);
    CreatedEmpty(w, path);
    NamesStay(w1, file.value, 0, data, chunk);
  }

  /** Writing touches no names and removes no file. */
  lemma {:induction false} NamesStay(w: World, fh: ObjId, offset: nat, data: Bytes, chunk: nat)
    requires chunk > 0
    ensures var st := WriteAll(w, fh, offset, data, chunk).1.store;
      && st.root == w.store.root && st.links == w.store.links && st.entries == w.store.entries
      && st.files.Keys == w.store.files.Keys
    decreases |data|
  {
    hide Overlay;
    if data != [] {
      var k := Min(chunk, |data|);
      var (r, w') := Write(w, fh, offset, data[..k]);
      if r.Ok? && r.value == k {
        NamesStay(w', fh, offset + k, data[k..], chunk);
      }
    }
  }

  /** What `read_whole` may return: the opened file, cut to the size of the followed one. */
  ghost predicate ReadsAs(st: Store, path: string, data: Bytes) {
    && Resolve(View(st), path, true).Ok? && Target(st, path).Ok?
    && var sized := Resolve(View(st), path, true).value;
    && var (dir, name) := Target(st, path).value;
    && sized in st.files && (dir, name) in st.entries
    && var read := st.entries[(dir, name)].fh;
    && (st.files[sized].now != [] ==> read in st.files && data == Window(st.files[read].now, 0, |st.files[sized].now|))
    && (st.files[sized].now == [] ==> data == [])
  }

  /**
   * Whole-file round trip. What `read_whole` returns after `write_whole` succeeded is what the
   * file holds, hence the data exactly as `WriteWholeComplete` says; the final name must not be
   * ".", which `resolve` skips and `resolve_parent` does not.
   */
  lemma {:induction false} WholeFileRoundTrip(before: Store, after: Store, path: string, fh: ObjId, back: Bytes)
    requires Holds(before, after, path, fh) && ReadsAs(after, path, back)
    requires Target(before, path).value.1 != "."
    ensures back == after.files[fh].now
  {
    hide Target, Resolve, View;
    PathNames(before, after, path, fh);
    var content := after.files[fh].now;
    assert Window(content, 0, |content|) == content;
  }

  /** The path leads to the file, followed or by its directory. */
  lemma {:induction false} PathNames(before: Store, after: Store, path: string, fh: ObjId)
    requires Holds(before, after, path, fh) && Target(before, path).value.1 != "."
    ensures Target(after, path) == Target(before, path)
    ensures Resolve(View(after), path, true) == Ok(fh)
  {
    hide Walk, SplitComponents;
    var comps := SplitComponents(path);
    var parent := comps[..|comps| - 1];
    var fs, fs' := View(before), View(after);
    WalkStable(fs, fs', before.root, parent, MAX_SYMLINK_DEPTH, true);
    var w := Walk(fs, before.root, parent, MAX_SYMLINK_DEPTH, true).value;
    ResolveByParent(fs', path, w.obj, Entry(fh, false), w.budget, true);
  }

  /**
   * Why `read_whole` fails: the path does not resolve, GETATTR is refused or finds no file, the
   * last name is not in its directory, or a READ fails.
   */
  ghost predicate ReadWholeFails(w: World, path: string, error: Error) {
    match Resolve(View(w.store), path, true)
    case Err(e) => error == e
    case Ok(sized) =>
      if MoodAt(w.script, 0).Refuses? then error == Backend(MoodAt(w.script, 0).code)
      else if sized !in w.store.files then error == Backend(70)
      else
        match Target(w.store, path)
        case Err(e) => error == e
        case Ok(target) =>
          if target !in w.store.entries then error == Backend(2)
          else exists i :: i > 0 && ReadFails(w.store, w.store.entries[target].fh, MoodAt(w.script, i), error)
  }

  lemma {:induction false} PingOutcome(w: World)
    ensures Ping(w).0 == (if MoodAt(w.script, 0).Refuses? then Err(MoodAt(w.script, 0).code) else Ok(()))
    ensures Ping(w).1 == Begun(w) && Begun(w).script == Skip(w.script, 1)
    ensures Begun(w).store.files.Keys == w.store.files.Keys && Begun(w).store.entries == w.store.entries
    ensures Begun(w).store.root == w.store.root && Begun(w).store.links == w.store.links
  {
  }

  lemma {:induction false} LaterMood(script: seq<Mood>, n: nat)
    requires n > 0
    ensures MoodAt(Skip(script, 1), n - 1) == MoodAt(script, n)
  {
  }

  /** No restart can change the files that the path leads to. */
  ghost predicate SteadyFor(w: World, path: string) {
    && (Resolve(View(w.store), path, true).Ok? ==> Steady(w, Resolve(View(w.store), path, true).value))
    && (Target(w.store, path).Ok? && Target(w.store, path).value in w.store.entries ==>
          Steady(w, w.store.entries[Target(w.store, path).value].fh))
  }

  lemma {:induction false} SteadyNames(w: World, path: string, fh: ObjId)
    requires Steady(w, fh) && Resolve(View(w.store), path, true) == Ok(fh)
    requires Target(w.store, path).Ok? && Target(w.store, path).value in w.store.entries
    requires w.store.entries[Target(w.store, path).value].fh == fh
    ensures SteadyFor(w, path)
  {
    hide Target, Resolve, View, Steady;
  }

  // --- The context ------------------------------------------------------------------------

  class NfsContext {
    var world: World
    const version: int
    const prefRead: nat
    const prefWrite: nat

    constructor (world: World, version: int, rtpref: Option<u32>, wtpref: Option<u32>)
      ensures this.world == world && this.version == version
      ensures 32 * 1024 <= prefRead <= 1024 * 1024 && 32 * 1024 <= prefWrite <= 1024 * 1024
    {
      this.world := world;
      this.version := version;
      prefRead := Preferred(version, rtpref);
      prefWrite := Preferred(version, wtpref);
    }

    /**
     * `pread`: exactly the bytes of the file in the window, however the server cuts them, as long
     * as no restart takes them away meanwhile.
     */
    method Pread(fh: ObjId, offset: nat, count: nat) returns (r: Result<Bytes, Error>, ghost n: nat)
      requires prefRead > 0
      modifies this
      ensures world.script == Skip(old(world.script), n) && (forall i :: 0 <= i < n - 1 ==> MoodAt(old(world.script), i).Serves?)
      ensures r.Ok? ==> n > 0 ==> MoodAt(old(world.script), n - 1).Serves?
      ensures r.Err? ==> n > 0 && ReadFails(old(world.store), fh, MoodAt(old(world.script), n - 1), r.error)
      ensures Quiet(old(world)) ==> Quiet(world) && world.store == old(world.store)
      ensures r.Ok? && count > 0 && Steady(old(world), fh) ==>
        fh in old(world.store.files) && r.value == Window(old(world.store.files)[fh].now, offset, count)
      ensures count == 0 ==> r == Ok([])
    {
      hide Read, Window, Quiet, Steady, Begun;
      ghost var files := world.store.files;
      if fh in files {
        WindowStart(files[fh].now, offset);
      }
      ghost var quiet, steady := Quiet(world), Steady(world, fh);
      var out: Bytes := [];
      var pos := offset;
      var left: nat := count;
      n := 0;
      while left > 0
        invariant world.script == Skip(old(world.script), n) && (forall i :: 0 <= i < n ==> MoodAt(old(world.script), i).Serves?)
        invariant fh in world.store.files <==> fh in files
        invariant quiet ==> Quiet(world) && world.store == old(world.store)
        invariant steady ==> Steady(world, fh) && (fh in world.store.files <==> fh in files)
        invariant pos + left == offset + count && |out| == pos - offset
        invariant steady && fh in files ==> world.store.files[fh] == files[fh] && out == Window(files[fh].now, offset, pos - offset)
        invariant steady && out != [] ==> fh in files
        decreases left
      {
        if quiet {
          QuietKept(world);
        }
        if steady {
          SteadyKept(world, fh);
        }
        ReadOutcome(world, old(world.script), n, fh, pos, Min(left, prefRead));
        n := n + 1;
        var want := Min(left, prefRead);
        var read := Read(world, fh, pos, want);
        world := Begun(world);
        if read.Err? {
          return Err(Backend(read.error)), n;
        }
        var (data, eof) := read.value;
        if steady {
          WindowConcat(files[fh].now, offset, pos - offset, |data|);
        }
        out := out + data;
        pos := pos + |data|;
        left := left - |data|;
        if eof || |data| == 0 {
          if steady {
            WindowEnd(files[fh].now, offset, pos - offset, count);
          }
          return Ok(out), n;
        }
      }
      r := Ok(out);
    }

    /** `pwrite`, chunk by chunk, stopping at the first short write. */
    method Pwrite(fh: ObjId, offset: nat, data: Bytes) returns (r: Result<nat, Error>, ghost n: nat)
      requires prefWrite > 0
      modifies this
      ensures var spec := WriteAll(old(world), fh, offset, data, prefWrite);
        r == Lift(spec.0) && world == spec.1
      ensures Calm(old(world.script)) ==> Wrote(old(world), world, fh, offset, data, n) && (r.Ok? ==> r.value == n)
    {
      hide Write, Overlay, Calm, Wrote;
      n := 0;
      if Calm(world.script) {
        n := WriteAllOverlays(world, fh, offset, data, prefWrite);
      }
      var written: nat := 0;
      var pos: nat := offset;
      var rest := data;
      while |rest| > 0
        invariant WriteAll(old(world), fh, offset, data, prefWrite)
               == Added(written, WriteAll(world, fh, pos, rest, prefWrite))
        decreases |rest|
      {
        var k := Min(prefWrite, |rest|);
        var piece := rest[..k];
        var (w, after) := Write(world, fh, pos, piece);
        world := after;
        if w.Err? {
          return Err(Backend(w.error)), n;
        }
        written := written + w.value;
        pos := pos + w.value;
        if w.value < |piece| {
          return Ok(written), n;
        }
        rest := rest[k..];
      }
      r := Ok(written);
    }

    /** `open` with `create_write` flags: create in the resolved directory, then truncate. */
    method CreateFile(path: string) returns (r: Result<ObjId, Error>)
      modifies this
      ensures (r, world) == CreateFileSpec(old(world), path)
      ensures r.Ok? ==> Emptied(old(world.store), world.store, path, r.value)
    {
      hide Walk, SplitComponents, Create, Truncate, Emptied;
      if CreateFileSpec(world, path).0.Ok? {
        CreatedEmpty(world, path);
      }
      var target :- ResolveParent(View(world.store), path);
      var (made, w) := Create(world, target.0, target.1);
      world := w;
      if made.Err? {
        return Err(Backend(made.error));
      }
      var (cut, w') := Truncate(world, made.value);
      world := w';
      r := if cut.Err? then Err(Backend(cut.error)) else Ok(made.value);
    }

    /**
     * `write_whole`: the count of bytes written and the result of COMMIT are thrown away, so
     * success says no more than `WriteWholeComplete` does.
     */
    method WriteWhole(path: string, data: Bytes) returns (r: Result<(), Error>, ghost fh: ObjId)
      requires prefWrite > 0
      modifies this
      ensures (r, world) == WriteWholeSpec(old(world), path, data, prefWrite, version)
      ensures r.Ok? ==> Holds(old(world.store), world.store, path, fh)
      ensures r.Ok? ==>
        var created := CreateFileSpec(old(world), path).1.script;
        var p := Progress(created, data, 0, 0, prefWrite);
        world.store.files[fh].now == data <==> p.Some? && StillThere(p.value.1, |data|, p.value.0, version)
    {
      hide CreateFileSpec, WriteAll, Holds, Progress, Emptied, Wrote;
      if WriteWholeSpec(world, path, data, prefWrite, version).0.Ok? {
        WriteWholeHolds(world, path, data, prefWrite, version);
        WriteWholeComplete(world, path, data, prefWrite, version);
      }
      fh := [];
      var file :- CreateFile(path);
      fh := file;
      var written, _ := Pwrite(file, 0, data);
      var (_, w) := Commit(world, file); // its result is ignored
      world := w;
      if version == 4 {
        var (closed, w') := Ping(world);
        world := w';
        if closed.Err? {
          return Err(Backend(closed.error)), fh;
        }
      }
      r := if written.Ok? then Ok(()) else Err(written.error);
    }

    /** `read_whole`: size by a followed path, data through the directory and name. */
    method ReadWhole(path: string) returns (r: Result<Bytes, Error>)
      requires prefRead > 0
      modifies this
      ensures Quiet(old(world)) ==> world.store == old(world.store)
      ensures r.Ok? && SteadyFor(old(world), path) ==> ReadsAs(old(world.store), path, r.value)
      ensures r.Err? ==> ReadWholeFails(old(world), path, r.error)
    {
      hide Walk, SplitComponents, Quiet, Steady, Begun, Window, MoodAt, Skip;
      ghost var quiet, steady := Quiet(world), SteadyFor(world, path);
      var fs := View(world.store);
      var fh, _ := ResolveLoop(fs, path, true, 0);
      if fh.Err? {
        return Err(fh.error);
      }
      ghost var before := world;
      if quiet {
        QuietKept(world);
      }
      PingOutcome(world);
      var (stat, w) := Ping(world);
      world := w;
      if steady {
        SteadyKept(before, fh.value);
      }
      if stat.Err? {
        return Err(Backend(stat.error));
      }
      if fh.value !in world.store.files {
        return Err(Backend(NFSERR_STALE));
      }
      var size := |world.store.files[fh.value].now|;
      var target :- ResolveParent(fs, path);
      var entry :- fs.Lookup(target.0, target.1);
      if steady {
        SteadyKept(before, entry.fh);
      }
      ghost var n;
      r, n := Pread(entry.fh, 0, size);
      if r.Err? {
        LaterMood(before.script, n);
      }
      if version == 4 {
        if quiet {
          QuietKept(world);
        }
        var (_, w') := Ping(world); // close, whose result is ignored
        world := w';
      }
    }

    /**
     * `write_whole` and then `read_whole`. If both succeed and no restart can change the file in
     * between, what comes back is the data exactly under the condition of `WriteWholeComplete`;
     * and if COMMIT got it all, it comes back whatever restarts follow.
     */
    method WriteThenRead(path: string, data: Bytes) returns (written: Result<(), Error>, back: Result<Bytes, Error>)
      requires prefRead > 0 && prefWrite > 0
      modifies this
      ensures var between := WriteWholeSpec(old(world), path, data, prefWrite, version);
        var (file, created) := CreateFileSpec(old(world), path);
        var p := Progress(created.script, data, 0, 0, prefWrite);
        written == between.0 &&
        (written.Ok? && back.Ok? && Target(old(world.store), path).Ok? && Target(old(world.store), path).value.1 != "." && file.Ok? ==>
          && (Steady(between.1, file.value) ==>
                (back.value == data <==> p.Some? && StillThere(p.value.1, |data|, p.value.0, version)))
          && (p.Some? && MadeStable(p.value.1, |data|, p.value.0) ==> back.value == data))
    {
      hide CreateFileSpec, WriteWholeSpec, Progress, Target, ReadsAs, Resolve, View, Quiet;
      ghost var before := world;
      ghost var fh;
      written, fh := WriteWhole(path, data);
      if written.Err? {
        back := Err(written.error);
        return;
      }
      ghost var between := world;
      back := ReadWhole(path);
      if Target(before.store, path).Ok? && Target(before.store, path).value.1 != "." {
        WriteWholeHolds(before, path, data, prefWrite, version);
        WriteWholeComplete(before, path, data, prefWrite, version);
        var file := CreateFileSpec(before, path).0.value;
        PathNames(before.store, between.store, path, file);
        if Steady(between, file) && back.Ok? {
          SteadyNames(between, path, file);
          WholeFileRoundTrip(before.store, between.store, path, file, back.value);
        }
      }
    }
  }

  function Added(n: nat, r: (Result<nat, int>, World)): (Result<nat, int>, World) {
    (if r.0.Ok? then Ok(n + r.0.value) else r.0, r.1)
  }

  lemma {:induction false} OverlayEmpty(data: Bytes)
    ensures Overlay([], 0, data) == data
  {
    var empty: Bytes := [];
    assert empty[..0] + data + [] == data;
  }

  // --- Two ways to lose data in silence ---------------------------------------------------

  const STEADY: Mood := Serves(3, true, false, [], false)

  function OneFile(content: File): Store {
    Store([0], map[([0], "f") := Entry([1], false)], map[], map[[1] := content])
  }

  lemma {:induction false} WriteToOne(content: File, mood: Mood, rest: seq<Mood>, data: Bytes)
    requires mood.Serves? && !mood.restarted && !mood.flushes
    ensures Write(World(OneFile(content), [mood] + rest), [1], 0, data) ==
      var n := Min(mood.most, |data|);
      (Ok(n), World(OneFile(File(Overlay(content.now, 0, data[..n]), content.stable)), rest))
  {
    hide Overlay;
    assert ([mood] + rest)[1..] == rest;
    var file := File(Overlay(content.now, 0, data[..Min(mood.most, |data|)]), content.stable);
    assert OneFile(content).files[[1] := file] == OneFile(file).files;
  }

  lemma {:induction false} CommitOne(content: File, mood: Mood, rest: seq<Mood>)
    requires mood.Serves?
    ensures Commit(World(OneFile(content), [mood] + rest), [1]) ==
      var kept := if mood.restarted then content.stable else content.now;
      (Ok(()), World(OneFile(File(kept, kept)), rest))
  {
    assert ([mood] + rest)[1..] == rest;
    var kept := if mood.restarted then content.stable else content.now;
    assert Restarted(OneFile(content)).files == OneFile(File(content.stable, content.stable)).files;
    assert OneFile(content).files[[1] := File(kept, kept)] == OneFile(File(kept, kept)).files;
    assert OneFile(File(kept, kept)).files[[1] := File(kept, kept)] == OneFile(File(kept, kept)).files;
  }

  lemma {:induction false} CloseOne(content: File, mood: Mood, version: int)
    requires mood.Serves? && !mood.restarted
    ensures var (closed, w) := Closing(World(OneFile(content), [mood]), version); closed == Ok(()) && w.store == OneFile(content)
  {
  }

  /** A server that writes one byte of three leaves one, and all is "well". */
  lemma {:induction false} ShortWriteIsSilent(chunk: nat, version: int)
    requires chunk >= 3
    ensures var short := Serves(1, true, false, [], false);
      var (r, w) := WriteWholeSpec(World(OneFile(File([], [])), [STEADY, STEADY, short, STEADY, STEADY]), "/f", [7, 8, 9], chunk, version);
      r == Ok(()) && w.store == OneFile(File([7], [7]))
  {
    hide WriteWholeSpec, Write, Commit, Closing, Overlay, OneFile;
    var short := Serves(1, true, false, [], false);
    assert [STEADY, STEADY] + [short, STEADY, STEADY] == [STEADY, STEADY, short, STEADY, STEADY];
    assert [short] + [STEADY, STEADY] == [short, STEADY, STEADY] && [STEADY] + [STEADY] == [STEADY, STEADY];
    WritesOnce([short, STEADY, STEADY], chunk, version);
    var data: Bytes := [7, 8, 9];
    assert data[..1] == [7];
    OverlayEmpty([7]);
    WriteToOne(File([], []), short, [STEADY, STEADY], data);
    CommitOne(File([7], []), STEADY, [STEADY]);
    CloseOne(File([7], [7]), STEADY, version);
  }

  /**
   * A server that takes every byte, restarts and then serves COMMIT leaves an empty file, and all
   * is "well" too: the write verifier that would tell is not looked at.
   */
  lemma {:induction false} RestartIsSilent(chunk: nat, version: int)
    requires chunk >= 3
    ensures var restarted := Serves(3, true, false, [], true);
      var (r, w) := WriteWholeSpec(World(OneFile(File([], [])), [STEADY, STEADY, STEADY, restarted, STEADY]), "/f", [7, 8, 9], chunk, version);
      r == Ok(()) && w.store == OneFile(File([], []))
  {
    hide WriteWholeSpec, Write, Commit, Closing, Overlay, OneFile;
    var restarted := Serves(3, true, false, [], true);
    assert [STEADY, STEADY] + [STEADY, restarted, STEADY] == [STEADY, STEADY, STEADY, restarted, STEADY];
    assert [STEADY] + [restarted, STEADY] == [STEADY, restarted, STEADY] && [restarted] + [STEADY] == [restarted, STEADY];
    WritesOnce([STEADY, restarted, STEADY], chunk, version);
    var data: Bytes := [7, 8, 9];
    assert data[..3] == data;
    OverlayEmpty(data);
    WriteToOne(File([], []), STEADY, [restarted, STEADY], data);
    CommitOne(File(data, []), restarted, [STEADY]);
    CloseOne(File([], []), STEADY, version);
  }

  lemma {:induction false} TargetOne(content: File)
    ensures Target(OneFile(content), "/f") == Ok(([0], "f"))
  {
    hide Walk, SplitComponents, View;
    assert SplitComponents("/f") == ["f"] by {
      assert JoinPath(["f"]) == "/f";
      SplitJoin(["f"]);
    }
    assert ["f"][..0] == [];
    WalkEnd(View(OneFile(content)), [0], MAX_SYMLINK_DEPTH, true);
  }

  lemma {:induction false} CreateOne(content: File, rest: seq<Mood>)
    ensures Create(World(OneFile(content), [STEADY] + rest), [0], "f") == (Ok([1]), World(OneFile(content), rest))
    ensures Truncate(World(OneFile(content), [STEADY] + rest), [1]) == (Ok(()), World(OneFile(File([], [])), rest))
  {
    assert ([STEADY] + rest)[1..] == rest;
    assert OneFile(content).files[[1] := File([], [])] == OneFile(File([], [])).files;
  }

  lemma {:induction false} OpenOne(script: seq<Mood>)
    ensures CreateFileSpec(World(OneFile(File([], [])), [STEADY] + ([STEADY] + script)), "/f")
         == (Ok([1]), World(OneFile(File([], [])), script))
  {
    hide OneFile, Target, Create, Truncate;
    TargetOne(File([], []));
    CreateOne(File([], []), [STEADY] + script);
    CreateOne(File([], []), script);
  }

  lemma {:induction false} OneChunk(w: World, fh: ObjId, data: Bytes, chunk: nat)
    requires 0 < |data| <= chunk && Write(w, fh, 0, data).0.Ok?
    ensures WriteAll(w, fh, 0, data, chunk) == Write(w, fh, 0, data)
  {
    hide Write;
    assert data[..|data|] == data && data[|data|..] == [];
    var (r, w') := Write(w, fh, 0, data);
    assert WriteAll(w', fh, |data|, [], chunk) == (Ok(0), w');
  }

  /** The steps of such a run: one WRITE to the empty file, then COMMIT and CLOSE. */
  lemma {:induction false} WritesOnce(script: seq<Mood>, chunk: nat, version: int)
    requires chunk >= 3
    ensures var data: Bytes := [7, 8, 9];
      var (written, w') := Write(World(OneFile(File([], [])), script), [1], 0, data);
      written.Ok? ==>
        WriteWholeSpec(World(OneFile(File([], [])), [STEADY, STEADY] + script), "/f", data, chunk, version) ==
          var (closed, w'') := Closing(Commit(w', [1]).1, version);
          (if closed.Err? then Err(Backend(closed.error)) else Ok(()), w'')
  {
    hide OneFile, Write, WriteAll, CreateFileSpec, Commit, Closing;
    var data: Bytes := [7, 8, 9];
    var w := World(OneFile(File([], [])), script);
    assert [STEADY, STEADY] + script == [STEADY] + ([STEADY] + script);
    OpenOne(script);
    if Write(w, [1], 0, data).0.Ok? {
      OneChunk(w, [1], data, chunk);
    }
  }
}
