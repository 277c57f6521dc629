/** Message types of NFSv3 and MOUNT, as schemas: derived types and hand-decoded lists. */
module Protocols {
  import opened Wire
  import opened Xdr
  import opened XdrTheorems

  function One(a: Schema): Fields { FCons(None, a, FNil) }
  function Two(a: Schema, b: Schema): Fields { FCons(None, a, One(b)) }
  function Three(a: Schema, b: Schema, c: Schema): Fields { FCons(None, a, Two(b, c)) }
  function Then3(a: Schema, b: Schema, c: Schema, tail: Fields): Fields { FCons(None, a, FCons(None, b, FCons(None, c, tail))) }

  const NFSTIME3: Schema := Struct(Two(U32, U32))
  const SPECDATA3: Schema := Struct(Two(U32, U32))
  const NFS_FH3: Schema := Struct(FCons(Some(64), Opaque, FNil))

  const FATTR3: Schema :=
    Struct(Then3(U32, U32, U32, Then3(U32, U32, U64, Then3(U64, SPECDATA3, U64,
           Then3(U64, NFSTIME3, NFSTIME3, One(NFSTIME3))))))

  /** `SetTime`: leave alone, server time, client time. */
  const SETTIME: Schema := Union(ACons(0, FNil, ACons(1, FNil, ACons(2, One(NFSTIME3), ANil))))

  const SATTR3: Schema :=
    Struct(Then3(Optional(U32), Optional(U32), Optional(U32), Three(Optional(U64), SETTIME, SETTIME)))

  const ENTRY3: Schema := Struct(Three(U64, Str, U64))
  const ENTRYPLUS3: Schema := Struct(Then3(U64, Str, U64, Two(Optional(FATTR3), Optional(NFS_FH3))))
  const READDIR_OK: Schema := Struct(Then3(Optional(FATTR3), Fixed(8), Linked(ENTRY3), One(Bool)))
  const READDIRPLUS_OK: Schema := Struct(Then3(Optional(FATTR3), Fixed(8), Linked(ENTRYPLUS3), One(Bool)))

  /** A list of exports, each with its own list of groups. */
  const EXPORT_LIST: Schema := Linked(Struct(Two(Str, Linked(Str))))
  const MOUNT_LIST: Schema := Linked(Struct(Two(Str, Str)))

  predicate IsMessage(s: Schema) {
    || s == FATTR3 || s == NFS_FH3 || s == SATTR3 || s == SETTIME
    || s == READDIR_OK || s == READDIRPLUS_OK || s == EXPORT_LIST || s == MOUNT_LIST
  }

  lemma {:induction false} SmallTypesWellFormed()
    ensures WellFormed(NFSTIME3) && WellFormed(SPECDATA3) && WellFormed(NFS_FH3) && WellFormed(SETTIME)
    ensures WellFormed(MOUNT_LIST) && WellFormed(ENTRY3)
  {
    assert WellFormed(NFSTIME3);
  }

  lemma {:induction false} FattrWellFormed()
    ensures WellFormed(FATTR3)
  {
    SmallTypesWellFormed();
    assert WellFormedFields(One(NFSTIME3));
    assert WellFormedFields(Then3(U64, NFSTIME3, NFSTIME3, One(NFSTIME3)));
    assert WellFormedFields(Then3(U64, SPECDATA3, U64, Then3(U64, NFSTIME3, NFSTIME3, One(NFSTIME3))));
  }

  lemma {:induction false} SattrWellFormed()
    ensures WellFormed(SATTR3)
  {
    SmallTypesWellFormed();
    assert WellFormedFields(Three(Optional(U64), SETTIME, SETTIME));
  }

  lemma {:induction false} OptionalWellFormed(s: Schema)
    requires WellFormed(s)
    ensures WellFormed(Optional(s)) && WellFormed(Linked(s))
  {
  }

  lemma {:induction false} PageWellFormed(entry: Schema)
    requires WellFormed(entry)
    ensures WellFormed(Struct(Then3(Optional(FATTR3), Fixed(8), Linked(entry), One(Bool))))
  {
    FattrWellFormed();
    OptionalWellFormed(FATTR3);
    OptionalWellFormed(entry);
    assert WellFormedFields(One(Bool));
    assert WellFormedFields(FCons(None, Linked(entry), One(Bool)));
    assert WellFormedFields(FCons(None, Fixed(8), FCons(None, Linked(entry), One(Bool))));
  }

  lemma {:induction false} EntryPlusWellFormed()
    ensures WellFormed(ENTRYPLUS3)
  {
    SmallTypesWellFormed();
    FattrWellFormed();
    OptionalWellFormed(FATTR3);
    OptionalWellFormed(NFS_FH3);
    assert WellFormedFields(Two(Optional(FATTR3), Optional(NFS_FH3)));
  }

  lemma {:induction false} ExportsWellFormed()
    ensures WellFormed(EXPORT_LIST)
  {
    assert WellFormed(Linked(Str));
  }

  lemma {:induction false} MessagesWellFormed(s: Schema)
    requires IsMessage(s)
    ensures WellFormed(s)
  {
    hide WellFormed;
    SmallTypesWellFormed();
    FattrWellFormed();
    SattrWellFormed();
    EntryPlusWellFormed();
    PageWellFormed(ENTRY3);
    PageWellFormed(ENTRYPLUS3);
    ExportsWellFormed();
  }

  /**
   * Every message of these types survives the trip, is accepted only whole, and is followed by
   * exactly what followed it; directory pages and nested export lists included.
   */
  lemma {:induction false} MessagesSurvive(s: Schema, v: Value, rest: Bytes, cut: Bytes)
    requires IsMessage(s) && HasType(s, v) && Encode(s, v).Ok?
    ensures Decode(s, Encode(s, v).value + rest) == Ok((v, rest))
    ensures cut < Encode(s, v).value ==> IsTruncated(Decode(s, cut))
  {
    hide Encode, Decode, HasType, IsMessage;
    MessagesWellFormed(s);
    RoundTrip(s, v, rest);
    if cut < Encode(s, v).value {
      StrictPrefix(s, v, cut);
    }
  }

  // --- The same types, written out --------------------------------------------------------

  function Pair(x: u32, y: u32): Value {
    VStruct(VCons(VNum(x), VCons(VNum(y), VNil)))
  }

  lemma {:induction false} PairLayout(x: u32, y: u32)
    ensures HasType(NFSTIME3, Pair(x, y)) && Encode(NFSTIME3, Pair(x, y)) == Ok(PutU32(x) + PutU32(y))
    ensures HasType(SPECDATA3, Pair(x, y)) && Encode(SPECDATA3, Pair(x, y)) == Ok(PutU32(x) + PutU32(y))
  {
    hide PutU32, EncodeFields, HaveTypes;
    WordIs(x);
    WordIs(y);
    OneField(U32, VNum(y), PutU32(y));
    MoreFields(U32, VNum(x), PutU32(x), One(U32), VCons(VNum(y), VNil), PutU32(y));
    StructIs(Two(U32, U32), VCons(VNum(x), VCons(VNum(y), VNil)));
  }

  /** The second half of fattr3, from rdev on. */
  lemma {:induction false} Fattr3Tail(major: u32, minor: u32, fsid: u64, fileid: u64, a: u32, an: u32, m: u32, mn: u32, c: u32, cn: u32)
    ensures var fs := FCons(None, SPECDATA3, FCons(None, U64, Then3(U64, NFSTIME3, NFSTIME3, One(NFSTIME3))));
      var vs := VCons(Pair(major, minor), VCons(VNum(fsid), VCons(VNum(fileid), VCons(Pair(a, an), VCons(Pair(m, mn), VCons(Pair(c, cn), VNil))))));
      && HaveTypes(fs, vs)
      && EncodeFields(fs, vs) == Ok((PutU32(major) + PutU32(minor)) + (PutU64(fsid) + (PutU64(fileid)
           + ((PutU32(a) + PutU32(an)) + ((PutU32(m) + PutU32(mn)) + (PutU32(c) + PutU32(cn)))))))
  {
    hide PutU32, PutU64, Encode, HasType, EncodeFields, HaveTypes, Pair;
    PairLayout(major, minor);
    PairLayout(a, an);
    PairLayout(m, mn);
    PairLayout(c, cn);
    HyperIs(fsid);
    HyperIs(fileid);
    var e1 := PutU32(c) + PutU32(cn);
    OneField(NFSTIME3, Pair(c, cn), e1);
    var f1, v1 := One(NFSTIME3), VCons(Pair(c, cn), VNil);
    MoreFields(NFSTIME3, Pair(m, mn), PutU32(m) + PutU32(mn), f1, v1, e1);
    var e2, f2, v2 := (PutU32(m) + PutU32(mn)) + e1, FCons(None, NFSTIME3, f1), VCons(Pair(m, mn), v1);
    MoreFields(NFSTIME3, Pair(a, an), PutU32(a) + PutU32(an), f2, v2, e2);
    var e3, f3, v3 := (PutU32(a) + PutU32(an)) + e2, FCons(None, NFSTIME3, f2), VCons(Pair(a, an), v2);
    MoreFields(U64, VNum(fileid), PutU64(fileid), f3, v3, e3);
    var e4, f4, v4 := PutU64(fileid) + e3, FCons(None, U64, f3), VCons(VNum(fileid), v3);
    MoreFields(U64, VNum(fsid), PutU64(fsid), f4, v4, e4);
    MoreFields(SPECDATA3, Pair(major, minor), PutU32(major) + PutU32(minor), FCons(None, U64, f4), VCons(VNum(fsid), v4), PutU64(fsid) + e4);
  }

  /** fattr3 of section 2.5 of RFC 1813: twenty-one words, in this order. */
  lemma {:induction false} Fattr3Layout(ftype: u32, mode: u32, nlink: u32, uid: u32, gid: u32, size: u64, used: u64, tail: Bytes, tailValues: Values)
    requires var fs := FCons(None, SPECDATA3, FCons(None, U64, Then3(U64, NFSTIME3, NFSTIME3, One(NFSTIME3))));
      HaveTypes(fs, tailValues) && EncodeFields(fs, tailValues) == Ok(tail)
    ensures var v := VStruct(VCons(VNum(ftype), VCons(VNum(mode), VCons(VNum(nlink), VCons(VNum(uid), VCons(VNum(gid),
                       VCons(VNum(size), VCons(VNum(used), tailValues))))))));
      && HasType(FATTR3, v)
      && Encode(FATTR3, v) == Ok(PutU32(ftype) + (PutU32(mode) + (PutU32(nlink) + (PutU32(uid) + (PutU32(gid)
           + (PutU64(size) + (PutU64(used) + tail)))))))
  {
    hide PutU32, PutU64, Encode, HasType, EncodeFields, HaveTypes;
    WordIs(ftype);
    WordIs(mode);
    WordIs(nlink);
    WordIs(uid);
    WordIs(gid);
    HyperIs(size);
    HyperIs(used);
    var f0 := FCons(None, SPECDATA3, FCons(None, U64, Then3(U64, NFSTIME3, NFSTIME3, One(NFSTIME3))));
    MoreFields(U64, VNum(used), PutU64(used), f0, tailValues, tail);
    var e1, f1, v1 := PutU64(used) + tail, FCons(None, U64, f0), VCons(VNum(used), tailValues);
    MoreFields(U64, VNum(size), PutU64(size), f1, v1, e1);
    var e2, f2, v2 := PutU64(size) + e1, FCons(None, U64, f1), VCons(VNum(size), v1);
    MoreFields(U32, VNum(gid), PutU32(gid), f2, v2, e2);
    var e3, f3, v3 := PutU32(gid) + e2, FCons(None, U32, f2), VCons(VNum(gid), v2);
    MoreFields(U32, VNum(uid), PutU32(uid), f3, v3, e3);
    var e4, f4, v4 := PutU32(uid) + e3, FCons(None, U32, f3), VCons(VNum(uid), v3);
    MoreFields(U32, VNum(nlink), PutU32(nlink), f4, v4, e4);
    var e5, f5, v5 := PutU32(nlink) + e4, FCons(None, U32, f4), VCons(VNum(nlink), v4);
    MoreFields(U32, VNum(mode), PutU32(mode), f5, v5, e5);
    var e6, f6, v6 := PutU32(mode) + e5, FCons(None, U32, f5), VCons(VNum(mode), v5);
    MoreFields(U32, VNum(ftype), PutU32(ftype), f6, v6, e6);
    StructIs(FCons(None, U32, f6), VCons(VNum(ftype), v6));
  }

  /** set_atime and set_mtime: 0, 1, or 2 and a time. */
  lemma {:induction false} SetTimeLayout(seconds: u32, nseconds: u32)
    ensures Encode(SETTIME, VUnion(0, VNil)) == Ok(PutU32(0))
    ensures Encode(SETTIME, VUnion(1, VNil)) == Ok(PutU32(1))
    ensures HasType(SETTIME, VUnion(2, VCons(Pair(seconds, nseconds), VNil)))
    ensures Encode(SETTIME, VUnion(2, VCons(Pair(seconds, nseconds), VNil))) == Ok(PutU32(2) + (PutU32(seconds) + PutU32(nseconds)))
  {
    hide PutU32, Pair, HasType;
    PairLayout(seconds, nseconds);
    var e := PutU32(seconds) + PutU32(nseconds);
    OneField(NFSTIME3, Pair(seconds, nseconds), e);
    SetTimeTyped(Pair(seconds, nseconds));
    assert EncodeFields(FNil, VNil) == Ok([]);
    assert PutU32(0) + [] == PutU32(0) && PutU32(1) + [] == PutU32(1);
    var arms := SETTIME.arms;
    assert EncodeArm(arms.tail.tail, 0, VCons(Pair(seconds, nseconds), VNil)) == Ok(PutU32(2) + e);
    assert EncodeArm(arms.tail, 1, VCons(Pair(seconds, nseconds), VNil)) == Ok(PutU32(2) + e);
    assert EncodeArm(arms.tail, 0, VNil) == Ok(PutU32(1));
  }

  lemma {:induction false} SetTimeTyped(time: Value)
    requires HasType(NFSTIME3, time)
    ensures HasType(SETTIME, VUnion(0, VNil)) && HasType(SETTIME, VUnion(1, VNil)) && HasType(SETTIME, VUnion(2, VCons(time, VNil)))
  {
    assert HaveTypes(One(NFSTIME3), VCons(time, VNil));
    assert ArmHasType(SETTIME.arms.tail.tail, 0, VCons(time, VNil));
    assert ArmHasType(SETTIME.arms.tail, 1, VCons(time, VNil));
  }

  /** sattr3: mode, uid, gid, size, and how to set the two times. */
  lemma {:induction false} Sattr3Layout(mode: Value, uid: Value, gid: Value, size: Value, atime: Value, mtime: Value, a: Bytes, b: Bytes, c: Bytes, d: Bytes, e: Bytes, f: Bytes)
    requires HasType(Optional(U32), mode) && HasType(Optional(U32), uid) && HasType(Optional(U32), gid) && HasType(Optional(U64), size)
    requires HasType(SETTIME, atime) && HasType(SETTIME, mtime)
    requires Encode(Optional(U32), mode) == Ok(a) && Encode(Optional(U32), uid) == Ok(b) && Encode(Optional(U32), gid) == Ok(c)
    requires Encode(Optional(U64), size) == Ok(d) && Encode(SETTIME, atime) == Ok(e) && Encode(SETTIME, mtime) == Ok(f)
    ensures var v := VStruct(VCons(mode, VCons(uid, VCons(gid, VCons(size, VCons(atime, VCons(mtime, VNil)))))));
      HasType(SATTR3, v) && Encode(SATTR3, v) == Ok(a + (b + (c + (d + (e + f)))))
  {
    hide Encode, HasType, EncodeFields, HaveTypes;
    OneField(SETTIME, mtime, f);
    var f1, v1 := One(SETTIME), VCons(mtime, VNil);
    MoreFields(SETTIME, atime, e, f1, v1, f);
    var f2, v2 := FCons(None, SETTIME, f1), VCons(atime, v1);
    MoreFields(Optional(U64), size, d, f2, v2, e + f);
    var f3, v3 := FCons(None, Optional(U64), f2), VCons(size, v2);
    MoreFields(Optional(U32), gid, c, f3, v3, d + (e + f));
    var f4, v4 := FCons(None, Optional(U32), f3), VCons(gid, v3);
    MoreFields(Optional(U32), uid, b, f4, v4, c + (d + (e + f)));
    var f5, v5 := FCons(None, Optional(U32), f4), VCons(uid, v4);
    MoreFields(Optional(U32), mode, a, f5, v5, b + (c + (d + (e + f))));
    StructIs(FCons(None, Optional(U32), f5), VCons(mode, v5));
  }

  /** A directory entry: fileid, name and cookie; then, in a READDIRPLUS, attributes and handle. */
  lemma {:induction false} EntryLayout(fileid: u64, name: Text, cookie: u64, attrs: Value, handle: Value, a: Bytes, h: Bytes)
    requires |name| < TWO32
    requires HasType(Optional(FATTR3), attrs) && Encode(Optional(FATTR3), attrs) == Ok(a)
    requires HasType(Optional(NFS_FH3), handle) && Encode(Optional(NFS_FH3), handle) == Ok(h)
    ensures var v := VStruct(VCons(VNum(fileid), VCons(VBytes(name), VCons(VNum(cookie), VNil))));
      HasType(ENTRY3, v) && Encode(ENTRY3, v) == Ok(PutU64(fileid) + (Counted(name) + PutU64(cookie)))
    ensures var v := VStruct(VCons(VNum(fileid), VCons(VBytes(name), VCons(VNum(cookie), VCons(attrs, VCons(handle, VNil))))));
      HasType(ENTRYPLUS3, v) && Encode(ENTRYPLUS3, v) == Ok(PutU64(fileid) + (Counted(name) + (PutU64(cookie) + (a + h))))
  {
    hide PutU64, Encode, HasType, EncodeFields, HaveTypes, Counted, ValidUtf8;
    HyperIs(fileid);
    HyperIs(cookie);
    CountedIs(name);
    var n := Counted(name);
    OneField(U64, VNum(cookie), PutU64(cookie));
    MoreFields(Str, VBytes(name), n, One(U64), VCons(VNum(cookie), VNil), PutU64(cookie));
    MoreFields(U64, VNum(fileid), PutU64(fileid), Two(Str, U64), VCons(VBytes(name), VCons(VNum(cookie), VNil)), n + PutU64(cookie));
    StructIs(Three(U64, Str, U64), VCons(VNum(fileid), VCons(VBytes(name), VCons(VNum(cookie), VNil))));
    OneField(Optional(NFS_FH3), handle, h);
    var f1, v1 := One(Optional(NFS_FH3)), VCons(handle, VNil);
    MoreFields(Optional(FATTR3), attrs, a, f1, v1, h);
    var f2, v2 := FCons(None, Optional(FATTR3), f1), VCons(attrs, v1);
    MoreFields(U64, VNum(cookie), PutU64(cookie), f2, v2, a + h);
    var f3, v3 := FCons(None, U64, f2), VCons(VNum(cookie), v2);
    MoreFields(Str, VBytes(name), n, f3, v3, PutU64(cookie) + (a + h));
    var f4, v4 := FCons(None, Str, f3), VCons(VBytes(name), v3);
    MoreFields(U64, VNum(fileid), PutU64(fileid), f4, v4, n + (PutU64(cookie) + (a + h)));
    StructIs(FCons(None, U64, f4), VCons(VNum(fileid), v4));
  }

  /** A page: the directory's attributes, the verifier, the entries as a linked list, and eof. */
  lemma {:induction false} PageLayout(entry: Schema, attrs: Value, a: Bytes, verf: Bytes, entries: seq<Value>, parts: seq<Bytes>, eof: bool)
    requires entry == ENTRY3 || entry == ENTRYPLUS3
    requires HasType(Optional(FATTR3), attrs) && Encode(Optional(FATTR3), attrs) == Ok(a) && |verf| == 8 && Parts(entry, entries, parts)
    ensures var s := if entry == ENTRY3 then READDIR_OK else READDIRPLUS_OK;
      var v := VStruct(VCons(attrs, VCons(VBytes(verf), VCons(VArray(entries), VCons(VBool(eof), VNil)))));
      HasType(s, v) && Encode(s, v) == Ok(a + (verf + (Nodes(parts) + PutU32(if eof then 1 else 0))))
  {
    hide PutU32, Encode, HasType, EncodeFields, HaveTypes, Nodes, Parts, EncodeLinked;
    EofIs(eof);
    VerfIs(verf);
    ListIs(entry, entries, parts);
    var e := PutU32(if eof then 1 else 0);
    OneField(Bool, VBool(eof), e);
    var f1, v1 := One(Bool), VCons(VBool(eof), VNil);
    MoreFields(Linked(entry), VArray(entries), Nodes(parts), f1, v1, e);
    var f2, v2 := FCons(None, Linked(entry), f1), VCons(VArray(entries), v1);
    MoreFields(Fixed(8), VBytes(verf), verf, f2, v2, Nodes(parts) + e);
    var f3, v3 := FCons(None, Fixed(8), f2), VCons(VBytes(verf), v2);
    MoreFields(Optional(FATTR3), attrs, a, f3, v3, verf + (Nodes(parts) + e));
    StructIs(FCons(None, Optional(FATTR3), f3), VCons(attrs, v3));
  }

  lemma {:induction false} EofIs(eof: bool)
    ensures HasType(Bool, VBool(eof)) && Encode(Bool, VBool(eof)) == Ok(PutU32(if eof then 1 else 0))
  {
  }

  lemma {:induction false} VerfIs(verf: Bytes)
    requires |verf| == 8
    ensures HasType(Fixed(8), VBytes(verf)) && Encode(Fixed(8), VBytes(verf)) == Ok(verf)
  {
    assert Padded(verf) == verf;
  }

  lemma {:induction false} ListIs(elem: Schema, items: seq<Value>, parts: seq<Bytes>)
    requires Parts(elem, items, parts)
    ensures HasType(Linked(elem), VArray(items)) && Encode(Linked(elem), VArray(items)) == Ok(Nodes(parts))
  {
    hide Nodes;
    LinkedLayout(elem, items, parts);
  }

  /** An export: its directory and the list of its groups; a mount: host and directory. */
  lemma {:induction false} MountLayouts(dir: Text, host: Text, groups: seq<Value>, parts: seq<Bytes>)
    requires |dir| < TWO32 && |host| < TWO32 && Parts(Str, groups, parts)
    ensures var v := VStruct(VCons(VBytes(dir), VCons(VArray(groups), VNil)));
      HasType(EXPORT_LIST.elem, v) && Encode(EXPORT_LIST.elem, v) == Ok(Counted(dir) + Nodes(parts))
    ensures var v := VStruct(VCons(VBytes(host), VCons(VBytes(dir), VNil)));
      HasType(MOUNT_LIST.elem, v) && Encode(MOUNT_LIST.elem, v) == Ok(Counted(host) + Counted(dir))
    ensures EXPORT_LIST.Linked? && MOUNT_LIST.Linked?
  {
    hide Encode, HasType, EncodeFields, HaveTypes, Nodes, Parts, Counted, ValidUtf8;
    CountedIs(dir);
    CountedIs(host);
    ListIs(Str, groups, parts);
    OneField(Linked(Str), VArray(groups), Nodes(parts));
    MoreFields(Str, VBytes(dir), Counted(dir), One(Linked(Str)), VCons(VArray(groups), VNil), Nodes(parts));
    StructIs(Two(Str, Linked(Str)), VCons(VBytes(dir), VCons(VArray(groups), VNil)));
    OneField(Str, VBytes(dir), Counted(dir));
    MoreFields(Str, VBytes(host), Counted(host), One(Str), VCons(VBytes(dir), VNil), Counted(dir));
    StructIs(Two(Str, Str), VCons(VBytes(host), VCons(VBytes(dir), VNil)));
  }
}
