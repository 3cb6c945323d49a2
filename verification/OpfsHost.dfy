/** The worker's OPFS host (browser/src/composed-cli-worker.js:216-436): a
    handle table with reference counts over preopened files, where an empty
    file stands for an absent one and deleting is truncating.

    `Host` models it over the origin's private files (`disk`, by path
    segments). `Store` is a plain store without access handles, counts or
    empty files, and `HostIsAStore` says that no sequence of operations can
    tell the two apart. Storage faults are not part of this model. */
module OpfsHost {
  import opened Text

  type Segments = seq<string>

  datatype Code = NotFound | Invalid | PreopenFailed

  datatype Reply = Opened(id: nat) | Data(bytes: Bytes) | Wrote(count: nat) | Size(size: nat) | Done | Error(code: Code)

  datatype Op =
    | Preopen(path: string)
    | Open(path: string, create: bool)
    | Read(handle: nat, offset: nat, len: nat)
    | Write(handle: nat, offset: nat, data: Bytes)
    | Truncate(handle: nat, size: nat)
    | Sync(handle: nat)
    | SizeOf(handle: nat)
    | Close(handle: nat)
    | Delete(path: string)
    | CloseAll

  function NonEmpty(pieces: seq<string>): seq<string> {
    if pieces == [] then []
    else (if pieces[0] == "" then [] else [pieces[0]]) + NonEmpty(pieces[1..])
  }

  /** `pathSegments`: empty pieces are dropped, leading slashes with them. */
  function PathSegments(path: string): Segments {
    NonEmpty(Split(path, '/'))
  }

  /** Segments are the pieces between slashes that are not empty, in order. */
  lemma {:induction false} PathSegmentsAre(a: string, b: string, name: string)
    requires name != "" && '/' !in name
    ensures PathSegments(a + "/" + b) == PathSegments(a) + PathSegments(b)
    ensures PathSegments("") == [] && PathSegments(name) == [name]
  {
    hide Split, NonEmpty;
    SplitAround(a, '/', b);
    NonEmptyConcat(Split(a, '/'), Split(b, '/'));
    SplitOne("", '/');
    SplitOne(name, '/');
    NonEmptyOne("");
    NonEmptyOne(name);
  }

  lemma {:induction false} NonEmptyOne(piece: string)
    ensures NonEmpty([piece]) == if piece == "" then [] else [piece]
  {
    assert [piece][1..] == [];
  }

  lemma {:induction false} NonEmptyConcat(a: seq<string>, b: seq<string>)
    ensures NonEmpty(a + b) == NonEmpty(a) + NonEmpty(b)
  {
    if a == [] {
      assert a + b == b;
    } else {
      assert (a + b)[1..] == a[1..] + b;
      NonEmptyConcat(a[1..], b);
    }
  }

  // ----- what a file is -----

  function Zeros(n: nat): Bytes {
    seq(n, _ => 0)
  }

  function Resized(content: Bytes, size: nat): Bytes {
    if size <= |content| then content[..size] else content + Zeros(size - |content|)
  }

  /** A write behind the end fills the gap with zeros. */
  function Patched(content: Bytes, offset: nat, data: Bytes): Bytes {
    var grown := if |content| < offset then Resized(content, offset) else content;
    grown[..offset] + data + if offset + |data| < |grown| then grown[offset + |data|..] else []
  }

  function Slice(content: Bytes, offset: nat, len: nat): Bytes {
    if offset >= |content| then []
    else content[offset..offset + if len <= |content| - offset then len else |content| - offset]
  }

  /** Byte by byte: the written data where it was written, the old content
      elsewhere, and zeros in the gap. */
  lemma {:induction false} PatchedBytes(content: Bytes, offset: nat, data: Bytes, k: nat)
    ensures var r := Patched(content, offset, data);
            && |r| == (if offset + |data| > |content| then offset + |data| else |content|)
            && (k < |r| ==> r[k] == if offset <= k < offset + |data| then data[k - offset]
                                    else if k < |content| then content[k] else 0)
  {
  }

  // ----- the host -----

  /** `disk` has every file of the origin; `refCounts` has an entry for every
      path with an open access handle (`sahByPath`). */
  datatype Host = Host(disk: map<Segments, Bytes>, refCounts: map<string, int>, handles: map<nat, string>, nextId: nat)

  function Content(h: Host, path: string): Bytes {
    var segs := PathSegments(path);
    if segs in h.disk then h.disk[segs] else []
  }

  function Paths(paths: seq<string>): set<string> {
    set p <- paths
  }

  predicate Locked(paths: set<string>, path: string) {
    exists p <- paths :: PathSegments(p) == PathSegments(path)
  }

  function WithContent(h: Host, path: string, content: Bytes): Host {
    h.(disk := h.disk[PathSegments(path) := content])
  }

  /** The path a live handle stands for. */
  function PathOf(h: Host, handle: nat): Option<string> {
    if handle in h.handles && h.handles[handle] in h.refCounts then Some(h.handles[handle]) else None
  }

  function Apply(h: Host, op: Op): (Host, Reply) {
    match op
    case Preopen(path) =>
      if path in h.refCounts then (h, Done)
      else if PathSegments(path) == [] || Locked(h.refCounts.Keys, path) then (h, Error(PreopenFailed))
      else (WithContent(h, path, Content(h, path)).(refCounts := h.refCounts[path := 0]), Done)
    case Open(path, create) =>
      if path !in h.refCounts || (!create && |Content(h, path)| == 0) then (h, Error(NotFound))
      else (h.(refCounts := h.refCounts[path := h.refCounts[path] + 1],
               handles := h.handles[h.nextId := path], nextId := h.nextId + 1), Opened(h.nextId))
    case Close(handle) => (Closed(h, handle), Done)
    case Delete(path) => (if path in h.refCounts then WithContent(h, path, []) else h, Done)
    case CloseAll => (h.(refCounts := map[], handles := map[]), Done)
    case _ =>
      var path := PathOf(h, op.handle);
      if path == None then (h, Error(Invalid)) else OnFile(h, path.value, op)
  }

  function OnFile(h: Host, path: string, op: Op): (Host, Reply) {
    var content := Content(h, path);
    match op
    case Read(_, offset, len) => (h, Data(Slice(content, offset, len)))
    case Write(_, offset, data) => (WithContent(h, path, Patched(content, offset, data)), Wrote(|data| % 0x1_0000_0000))
    case Truncate(_, size) => (WithContent(h, path, Resized(content, size)), Done)
    case SizeOf(_) => (h, Size(|content|))
    case _ => (h, Done)
  }

  function Closed(h: Host, handle: nat): Host {
    if handle !in h.handles then h
    else
      var path := h.handles[handle];
      var n := if path in h.refCounts then h.refCounts[path] else 0;
      h.(refCounts := if path in h.refCounts then h.refCounts[path := if n > 0 then n - 1 else 0] else h.refCounts,
         handles := h.handles - {handle})
  }

  /** The object the worker creates once per session. */
  class WorkerOpfsHost {
    var disk: map<Segments, Bytes>
    var refCounts: map<string, int>
    var handles: map<nat, string>
    var nextId: nat

    ghost function Abs(): Host
      reads this
    {
      Host(disk, refCounts, handles, nextId)
    }

    constructor (files: map<Segments, Bytes>)
      ensures Abs() == Host(files, map[], map[], 1)
    {
      disk, refCounts, handles, nextId := files, map[], map[], 1;
    }

    /** Stops at the first path that cannot be opened; those before it stay. */
    method PreopenAll(paths: seq<string>) returns (ok: bool)
      modifies this`disk, this`refCounts
      ensures (Abs(), ok) == AfterPreopens(old(Abs()), paths)
    {
      for i := 0 to |paths|
        invariant handles == old(handles) && nextId == old(nextId)
        invariant AfterPreopens(Abs(), paths[i..]) == AfterPreopens(old(Abs()), paths)
      {
        hide PathSegments, Locked;
        assert paths[i..][1..] == paths[i + 1..];
        var path := paths[i];
        if path in refCounts { continue; }
        if PathSegments(path) == [] || Locked(refCounts.Keys, path) {
          return false;
        }
        disk := disk[PathSegments(path) := if PathSegments(path) in disk then disk[PathSegments(path)] else []];
        refCounts := refCounts[path := 0];
      }
      ok := true;
    }

    method Open(path: string, create: bool) returns (r: Reply)
      modifies this`refCounts, this`handles, this`nextId
      ensures (Abs(), r) == Apply(old(Abs()), Op.Open(path, create))
      ensures r == if path in old(refCounts) && (create || |Content(old(Abs()), path)| > 0) then Opened(old(nextId))
                   else Error(NotFound)
      ensures r.Opened? ==> r.id in handles && handles[r.id] == path && refCounts[path] == old(refCounts[path]) + 1
    {
      hide PathSegments;
      if path !in refCounts {
        return Error(NotFound);
      }
      if !create {
        var size := GetSize(path);
        if size == 0 {
          return Error(NotFound);
        }
      }
      refCounts := refCounts[path := refCounts[path] + 1];
      r := Opened(nextId);
      handles := handles[nextId := path];
      nextId := nextId + 1;
    }

    method GetSize(path: string) returns (size: nat)
      ensures size == |Content(Abs(), path)|
    {
      size := if PathSegments(path) in disk then |disk[PathSegments(path)]| else 0;
    }

    method Read(handle: nat, offset: nat, len: nat) returns (r: Reply)
      ensures (Abs(), r) == Apply(Abs(), Op.Read(handle, offset, len))
      ensures r.Error? <==> handle !in handles || handles[handle] !in refCounts
      ensures r.Error? ==> r.code == Invalid
    {
      hide PathSegments;
      if handle !in handles || handles[handle] !in refCounts {
        return Error(Invalid);
      }
      var path := handles[handle];
      var size := GetSize(path);
      if offset >= size {
        return Data([]);
      }
      var wanted := if len <= size - offset then len else size - offset;
      r := Data(disk[PathSegments(path)][offset..offset + wanted]);
    }

    method Write(handle: nat, offset: nat, data: Bytes) returns (r: Reply)
      modifies this`disk
      ensures (Abs(), r) == Apply(old(Abs()), Op.Write(handle, offset, data))
    {
      hide PathSegments, Patched;
      if handle !in handles || handles[handle] !in refCounts {
        return Error(Invalid);
      }
      var segs := PathSegments(handles[handle]);
      disk := disk[segs := Patched(if segs in disk then disk[segs] else [], offset, data)];
      r := Wrote(|data| % 0x1_0000_0000);
    }

    method Truncate(handle: nat, size: nat) returns (r: Reply)
      modifies this`disk
      ensures (Abs(), r) == Apply(old(Abs()), Op.Truncate(handle, size))
    {
      hide PathSegments, Resized;
      if handle !in handles || handles[handle] !in refCounts {
        return Error(Invalid);
      }
      var segs := PathSegments(handles[handle]);
      disk := disk[segs := Resized(if segs in disk then disk[segs] else [], size)];
      r := Done;
    }

    method Close(handle: nat)
      modifies this`refCounts, this`handles
      ensures Abs() == Apply(old(Abs()), Op.Close(handle)).0
    {
      if handle !in handles { return; }
      var path := handles[handle];
      if path in refCounts {
        refCounts := refCounts[path := if refCounts[path] - 1 > 0 then refCounts[path] - 1 else 0];
      }
      handles := handles - {handle};
    }

    method Delete(path: string)
      modifies this`disk
      ensures Abs() == Apply(old(Abs()), Op.Delete(path)).0
    {
      hide PathSegments;
      if path !in refCounts { return; }
      disk := disk[PathSegments(path) := []];
    }

    method CloseAll()
      modifies this`refCounts, this`handles
      ensures Abs() == Apply(old(Abs()), Op.CloseAll).0
    {
      refCounts := map[];
      handles := map[];
    }
  }

  function AfterPreopens(h: Host, paths: seq<string>): (Host, bool)
    decreases |paths|
  {
    if paths == [] then (h, true)
    else
      var (next, reply) := Apply(h, Preopen(paths[0]));
      if reply.Error? then (next, false) else AfterPreopens(next, paths[1..])
  }

  /** The first `i` paths are known afterwards, and path `i`, if there is one,
      could not be opened: it has no segments, or another known path has the
      same ones. */
  lemma {:induction false} PreopensAre(h: Host, paths: seq<string>) returns (i: nat)
    ensures var (t, ok) := AfterPreopens(h, paths);
            && i <= |paths| && (ok <==> i == |paths|)
            && t.refCounts.Keys == h.refCounts.Keys + Paths(paths[..i])
            && (!ok ==> paths[i] !in t.refCounts &&
                        (PathSegments(paths[i]) == [] ||
                         exists p <- t.refCounts :: PathSegments(p) == PathSegments(paths[i])))
    decreases |paths|
  {
    hide Apply, PathSegments;
    i := 0;
    if paths != [] {
      PreopenIs(h, paths[0]);
      var (next, reply) := Apply(h, Preopen(paths[0]));
      if !reply.Error? {
        i := PreopensAre(next, paths[1..]);
        i := i + 1;
        assert paths[..i] == [paths[0]] + paths[1..][..i - 1];
      }
    }
  }

  /** Paths that become known have no handle yet, and no file changes. */
  lemma {:induction false} PreopensKeep(h: Host, paths: seq<string>, path: string)
    ensures var t := AfterPreopens(h, paths).0;
            && Content(t, path) == Content(h, path) && t.handles == h.handles && t.nextId == h.nextId
            && (path in t.refCounts ==> t.refCounts[path] == if path in h.refCounts then h.refCounts[path] else 0)
            && (path in h.refCounts ==> path in t.refCounts)
    decreases |paths|
  {
    hide Apply, Content;
    if paths != [] {
      PreopenKeeps(h, paths[0], path);
      PreopensKeep(Apply(h, Preopen(paths[0])).0, paths[1..], path);
    }
  }

  lemma {:induction false} PreopenIs(h: Host, path: string)
    ensures var (t, reply) := Apply(h, Preopen(path));
            if reply.Error? then
              && t == h && path !in t.refCounts
              && (PathSegments(path) == [] || exists p <- t.refCounts :: PathSegments(p) == PathSegments(path))
            else t.refCounts.Keys == h.refCounts.Keys + {path}
  {
    hide PathSegments;
  }

  lemma {:induction false} PreopenKeeps(h: Host, path: string, other: string)
    ensures var t := Apply(h, Preopen(path)).0;
            && Content(t, other) == Content(h, other) && t.handles == h.handles && t.nextId == h.nextId
            && (other in t.refCounts ==> t.refCounts[other] == if other in h.refCounts then h.refCounts[other] else 0)
            && (other in h.refCounts ==> other in t.refCounts)
  {
    hide PathSegments;
  }

  // ----- the plain store -----

  /** Files that are there, by path; a file that is not there has no bytes. */
  datatype Store = Store(files: map<Segments, Bytes>, known: set<string>, handles: map<nat, string>, nextId: nat)

  function Put(files: map<Segments, Bytes>, segs: Segments, content: Bytes): map<Segments, Bytes> {
    if content == [] then files - {segs} else files[segs := content]
  }

  function BytesOf(s: Store, path: string): Bytes {
    var segs := PathSegments(path);
    if segs in s.files then s.files[segs] else []
  }

  function StoreApply(s: Store, op: Op): (Store, Reply) {
    match op
    case Preopen(path) =>
      if path in s.known then (s, Done)
      else if PathSegments(path) == [] || Locked(s.known, path) then (s, Error(PreopenFailed))
      else (s.(known := s.known + {path}), Done)
    case Open(path, create) =>
      if path in s.known && (create || PathSegments(path) in s.files) then
        (s.(handles := s.handles[s.nextId := path], nextId := s.nextId + 1), Opened(s.nextId))
      else (s, Error(NotFound))
    case Close(handle) => (s.(handles := s.handles - {handle}), Done)
    case Delete(path) => (if path in s.known then s.(files := s.files - {PathSegments(path)}) else s, Done)
    case CloseAll => (s.(known := {}, handles := map[]), Done)
    case _ =>
      if op.handle !in s.handles then (s, Error(Invalid))
      else StoreOnFile(s, s.handles[op.handle], op)
  }

  function StoreOnFile(s: Store, path: string, op: Op): (Store, Reply) {
    var content, segs := BytesOf(s, path), PathSegments(path);
    match op
    case Read(_, offset, len) => (s, Data(Slice(content, offset, len)))
    case Write(_, offset, data) =>
      (s.(files := Put(s.files, segs, Patched(content, offset, data))), Wrote(|data| % 0x1_0000_0000))
    case Truncate(_, size) => (s.(files := Put(s.files, segs, Resized(content, size))), Done)
    case SizeOf(_) => (s, Size(|content|))
    case _ => (s, Done)
  }

  /** What of the host its callers can know. */
  function View(h: Host): Store {
    Store(map segs | segs in h.disk && h.disk[segs] != [] :: h.disk[segs], h.refCounts.Keys, h.handles, h.nextId)
  }

  // ----- what every operation keeps -----

  /** The live handles on a path. */
  function Holders(h: Host, path: string): set<nat> {
    set id | id in h.handles && h.handles[id] == path
  }

  /** Live handles name preopened paths and are older than the next id; the
      count of a path is the number of its live handles; no two preopened
      paths are the same file. */
  predicate Sound(h: Host) {
    && (forall id <- h.handles :: id < h.nextId && h.handles[id] in h.refCounts)
    && (forall p <- h.refCounts ::
          h.refCounts[p] == |Holders(h, p)| && PathSegments(p) != [] && PathSegments(p) in h.disk)
    && (forall p <- h.refCounts, q <- h.refCounts :: PathSegments(p) == PathSegments(q) ==> p == q)
  }

  lemma {:induction false} HoldersAfterOpen(h: Host, path: string, p: string)
    requires h.nextId !in h.handles
    ensures var t := h.(handles := h.handles[h.nextId := path]);
            |Holders(t, p)| == |Holders(h, p)| + if p == path then 1 else 0
  {
    var t := h.(handles := h.handles[h.nextId := path]);
    if p == path {
      assert Holders(t, p) == Holders(h, p) + {h.nextId};
    } else {
      assert Holders(t, p) == Holders(h, p);
    }
  }

  lemma {:induction false} HoldersAfterClose(h: Host, handle: nat, p: string)
    requires handle in h.handles
    ensures var t := h.(handles := h.handles - {handle});
            |Holders(t, p)| == |Holders(h, p)| - if p == h.handles[handle] then 1 else 0
  {
    var t := h.(handles := h.handles - {handle});
    if p == h.handles[handle] {
      assert Holders(h, p) == Holders(t, p) + {handle};
    } else {
      assert Holders(t, p) == Holders(h, p);
    }
  }

  lemma {:induction false} HoldersSame(h: Host, t: Host, p: string)
    requires h.handles == t.handles
    ensures Holders(h, p) == Holders(t, p)
  {
  }

  /** Writing a file keeps the table as it is. */
  lemma {:induction false} SoundContent(h: Host, path: string, content: Bytes)
    requires Sound(h)
    ensures Sound(WithContent(h, path, content))
  {
    hide PathSegments;
    var t := WithContent(h, path, content);
    forall p | p in t.refCounts
      ensures t.refCounts[p] == |Holders(t, p)| && PathSegments(p) != [] && PathSegments(p) in t.disk
    {
      HoldersSame(h, t, p);
    }
  }

  lemma {:induction false} SoundPreopen(h: Host, path: string)
    requires Sound(h)
    ensures Sound(Apply(h, Preopen(path)).0)
  {
    hide PathSegments;
    var t := Apply(h, Preopen(path)).0;
    if t != h {
      forall p | p in t.refCounts
        ensures t.refCounts[p] == |Holders(t, p)| && PathSegments(p) != [] && PathSegments(p) in t.disk
      {
        HoldersSame(h, t, p);
        if p == path {
          assert Holders(t, p) == {};
        }
      }
    }
  }

  lemma {:induction false} SoundOpen(h: Host, path: string, create: bool)
    requires Sound(h)
    ensures Sound(Apply(h, Open(path, create)).0)
  {
    hide PathSegments, Content, Holders;
    var t := Apply(h, Open(path, create)).0;
    if t != h {
      forall p | p in t.refCounts
        ensures t.refCounts[p] == |Holders(t, p)|
      {
        HoldersAfterOpen(h, path, p);
        HoldersSame(t, h.(handles := h.handles[h.nextId := path]), p);
      }
    }
  }

  lemma {:induction false} SoundClose(h: Host, handle: nat)
    requires Sound(h)
    ensures Sound(Closed(h, handle))
    ensures handle in h.handles ==> h.refCounts[h.handles[handle]] >= 1
  {
    hide PathSegments, Holders;
    var t := Closed(h, handle);
    if handle in h.handles {
      HoldersAfterClose(h, handle, h.handles[handle]);
      forall p | p in t.refCounts
        ensures t.refCounts[p] == |Holders(t, p)|
      {
        HoldersAfterClose(h, handle, p);
        HoldersSame(t, h.(handles := h.handles - {handle}), p);
      }
    }
  }

  lemma {:induction false} SoundStep(h: Host, op: Op)
    requires Sound(h)
    ensures Sound(Apply(h, op).0)
  {
    hide Sound, PathSegments, Content, Patched, Resized, Slice;
    match op
    case Preopen(path) => SoundPreopen(h, path);
    case Open(path, create) => SoundOpen(h, path, create);
    case Close(handle) => SoundClose(h, handle);
    case Delete(path) => SoundContent(h, path, []);
    case CloseAll => SoundCleared(h);
    case Write(handle, offset, data) =>
      if PathOf(h, handle).Some? {
        var path := PathOf(h, handle).value;
        SoundContent(h, path, Patched(Content(h, path), offset, data));
      }
    case Truncate(handle, size) =>
      if PathOf(h, handle).Some? {
        var path := PathOf(h, handle).value;
        SoundContent(h, path, Resized(Content(h, path), size));
      }
    case _ =>
  }

  lemma {:induction false} SoundCleared(h: Host)
    ensures Sound(h.(refCounts := map[], handles := map[]))
  {
  }

  // ----- refinement -----

  lemma {:induction false} ViewPut(h: Host, path: string, content: Bytes)
    ensures View(WithContent(h, path, content)) == View(h).(files := Put(View(h).files, PathSegments(path), content))
  {
    hide PathSegments;
    assert View(WithContent(h, path, content)).files == Put(View(h).files, PathSegments(path), content);
  }

  lemma {:induction false} ViewContent(h: Host, path: string)
    ensures BytesOf(View(h), path) == Content(h, path)
    ensures PathSegments(path) in View(h).files <==> Content(h, path) != []
  {
    hide PathSegments;
  }

  lemma {:induction false} PutSame(h: Host, path: string)
    ensures Put(View(h).files, PathSegments(path), Content(h, path)) == View(h).files
  {
    hide PathSegments;
  }

  lemma {:induction false} PreopenRefines(h: Host, path: string)
    requires Sound(h)
    ensures View(Apply(h, Preopen(path)).0) == StoreApply(View(h), Preopen(path)).0
    ensures Apply(h, Preopen(path)).1 == StoreApply(View(h), Preopen(path)).1
  {
    hide PathSegments, Content, Put, Locked;
    ViewPut(h, path, Content(h, path));
    PutSame(h, path);
    assert View(Apply(h, Preopen(path)).0).known == StoreApply(View(h), Preopen(path)).0.known;
  }

  lemma {:induction false} OpenRefines(h: Host, path: string, create: bool)
    requires Sound(h)
    ensures View(Apply(h, Open(path, create)).0) == StoreApply(View(h), Open(path, create)).0
    ensures Apply(h, Open(path, create)).1 == StoreApply(View(h), Open(path, create)).1
  {
    hide PathSegments, Content;
    ViewContent(h, path);
    assert View(Apply(h, Open(path, create)).0).known == View(h).known;
  }

  lemma {:induction false} CloseRefines(h: Host, handle: nat)
    requires Sound(h)
    ensures View(Closed(h, handle)) == View(h).(handles := View(h).handles - {handle})
  {
    hide PathSegments, Holders;
    assert View(Closed(h, handle)).known == View(h).known;
    assert View(Closed(h, handle)).handles == View(h).handles - {handle};
  }

  /** One operation on the host is the same operation on the plain store, with
      the same reply. */
  lemma {:induction false} StepRefines(h: Host, op: Op)
    requires Sound(h)
    ensures View(Apply(h, op).0) == StoreApply(View(h), op).0
    ensures Apply(h, op).1 == StoreApply(View(h), op).1
  {
    hide PathSegments, Content, BytesOf, Patched, Resized, Slice, Put, Locked, OnFile, StoreOnFile;
    match op
    case Preopen(path) => PreopenRefines(h, path);
    case Open(path, create) => OpenRefines(h, path, create);
    case Close(handle) => CloseRefines(h, handle);
    case Delete(path) =>
      ViewPut(h, path, []);
      PutNothing(View(h).files, PathSegments(path));
    case CloseAll =>
    case _ =>
      if op.handle in h.handles {
        FileStepRefines(h, h.handles[op.handle], op);
      }
  }

  lemma {:induction false} PutNothing(files: map<Segments, Bytes>, segs: Segments)
    ensures Put(files, segs, []) == files - {segs}
  {
  }

  lemma {:induction false} FileStepRefines(h: Host, path: string, op: Op)
    requires op.Read? || op.Write? || op.Truncate? || op.Sync? || op.SizeOf?
    requires op.handle in h.handles && h.handles[op.handle] == path
    ensures View(OnFile(h, path, op).0) == StoreApply(View(h), op).0
    ensures OnFile(h, path, op).1 == StoreApply(View(h), op).1
  {
    hide PathSegments, Content, BytesOf, Patched, Resized, Slice, Put, WithContent;
    ViewContent(h, path);
    var content := Content(h, path);
    if op.Write? {
      ViewPut(h, path, Patched(content, op.offset, op.data));
    } else if op.Truncate? {
      ViewPut(h, path, Resized(content, op.size));
    }
  }

  /** Reading where one has just written gives the data back, through any
      handle on the file. */
  lemma {:induction false} WriteThenRead(h: Host, writer: nat, reader: nat, offset: nat, data: Bytes)
    requires Sound(h) && writer in h.handles && reader in h.handles && h.handles[writer] == h.handles[reader]
    ensures Apply(Apply(h, Write(writer, offset, data)).0, Read(reader, offset, |data|)).1 == Data(data)
  {
    hide PathSegments, Patched, Resized, Holders;
    var path := h.handles[writer];
    var patched := Patched(Content(h, path), offset, data);
    PatchedBytes(Content(h, path), offset, data, 0);
    forall k: nat | offset <= k < offset + |data|
      ensures k < |patched| && patched[k] == data[k - offset]
    {
      PatchedBytes(Content(h, path), offset, data, k);
    }
    assert Slice(patched, offset, |data|) == data;
  }

  /** The bytes of the file behind a live handle. */
  function FileOf(h: Host, handle: nat): Bytes
    requires handle in h.handles
  {
    var segs := PathSegments(h.handles[handle]);
    if segs in h.disk then h.disk[segs] else []
  }

  /** What the operations on a live handle answer and leave, in terms of the
      file's bytes; every handle on the file sees the same. */
  lemma {:induction false} RepliesAre(h: Host, handle: nat, other: nat, offset: nat, len: nat, data: Bytes)
    requires Sound(h) && handle in h.handles && other in h.handles && h.handles[handle] == h.handles[other]
    ensures Apply(h, SizeOf(handle)) == (h, Size(|FileOf(h, handle)|))
    ensures Apply(h, Sync(handle)) == (h, Done)
    ensures Apply(h, Read(handle, offset, len)).0 == h
    ensures Apply(h, Read(handle, offset, len)).1 == Data(
              if offset >= |FileOf(h, handle)| then []
              else if offset + len <= |FileOf(h, handle)| then FileOf(h, handle)[offset..offset + len]
              else FileOf(h, handle)[offset..])
    ensures Apply(h, Write(handle, offset, data)).1 == Wrote(|data| % 0x1_0000_0000)
    ensures Apply(h, Truncate(handle, len)).1 == Done
    ensures handle in Apply(h, Write(handle, offset, data)).0.handles
    ensures FileOf(Apply(h, Write(handle, offset, data)).0, other) == Patched(FileOf(h, handle), offset, data)
    ensures FileOf(Apply(h, Delete(h.handles[handle])).0, other) == []
  {
    hide PathSegments, Patched, Resized, Holders;
  }

  /** After a truncate the file has the size asked for, through any handle on
      it; byte `k` reads as the old byte below both lengths, as zero up to the
      new one, and as nothing from there on. */
  lemma {:induction false} TruncateIs(h: Host, handle: nat, other: nat, size: nat, k: nat)
    requires Sound(h) && handle in h.handles && other in h.handles && h.handles[handle] == h.handles[other]
    ensures var t := Apply(h, Truncate(handle, size)).0;
            && Apply(t, SizeOf(other)).1 == Size(size)
            && Apply(t, Read(other, k, 1)).1 ==
               if k >= size then Data([])
               else if Apply(h, SizeOf(other)).1.size <= k then Data([0])
               else Apply(h, Read(other, k, 1)).1
  {
    hide PathSegments, Holders;
    var t := Apply(h, Truncate(handle, size)).0;
    var was, now := FileOf(h, handle), FileOf(t, other);
    assert now == Resized(was, size);
    if k < size {
      assert now[k..k + 1] == [now[k]];
    }
    if k < |was| {
      assert was[k..k + 1] == [was[k]];
    }
  }

  function Replies(h: Host, ops: seq<Op>): seq<Reply>
    decreases |ops|
  {
    if ops == [] then [] else [Apply(h, ops[0]).1] + Replies(Apply(h, ops[0]).0, ops[1..])
  }

  function StoreReplies(s: Store, ops: seq<Op>): seq<Reply>
    decreases |ops|
  {
    if ops == [] then [] else [StoreApply(s, ops[0]).1] + StoreReplies(StoreApply(s, ops[0]).0, ops[1..])
  }

  function Final(h: Host, ops: seq<Op>): Host
    decreases |ops|
  {
    if ops == [] then h else Final(Apply(h, ops[0]).0, ops[1..])
  }

  /** Operations are done one after the other, each with one reply. */
  lemma {:induction false} RunIs(h: Host, s: Store, op: Op, rest: seq<Op>)
    ensures Replies(h, []) == StoreReplies(s, []) == [] && Final(h, []) == h
    ensures Replies(h, [op] + rest) == [Apply(h, op).1] + Replies(Apply(h, op).0, rest)
    ensures StoreReplies(s, [op] + rest) == [StoreApply(s, op).1] + StoreReplies(StoreApply(s, op).0, rest)
    ensures Final(h, [op] + rest) == Final(Apply(h, op).0, rest)
  {
    hide Apply, StoreApply;
    assert ([op] + rest)[1..] == rest;
  }

  /** Whatever the files were and whatever is done, every reply of the host is
      the reply of the plain store. */
  lemma {:induction false} HostIsAStore(files: map<Segments, Bytes>, ops: seq<Op>)
    ensures Replies(Host(files, map[], map[], 1), ops) == StoreReplies(View(Host(files, map[], map[], 1)), ops)
  {
    RunRefines(Host(files, map[], map[], 1), ops);
  }

  lemma {:induction false} RunRefines(h: Host, ops: seq<Op>)
    requires Sound(h)
    ensures Replies(h, ops) == StoreReplies(View(h), ops)
    decreases |ops|
  {
    hide Sound, Apply, StoreApply, View;
    if ops != [] {
      StepRefines(h, ops[0]);
      SoundStep(h, ops[0]);
      RunRefines(Apply(h, ops[0]).0, ops[1..]);
    }
  }

  lemma {:induction false} RunKeepsSound(h: Host, ops: seq<Op>)
    requires Sound(h)
    ensures Sound(Final(h, ops))
    decreases |ops|
  {
    hide Sound, Apply;
    if ops != [] {
      SoundStep(h, ops[0]);
      RunKeepsSound(Apply(h, ops[0]).0, ops[1..]);
    }
  }

  /** After any operations the count of every preopened path is the number of
      its live handles, every live handle names a preopened path, and closing a
      live handle takes a count that is at least one: the clamp never acts. */
  lemma {:induction false} CountsAreHandles(files: map<Segments, Bytes>, ops: seq<Op>)
    ensures var h := Final(Host(files, map[], map[], 1), ops);
            && (forall p <- h.refCounts :: h.refCounts[p] == |Holders(h, p)|)
            && (forall id <- h.handles :: h.handles[id] in h.refCounts && h.refCounts[h.handles[id]] >= 1)
  {
    hide Final, Holders, PathSegments;
    RunKeepsSound(Host(files, map[], map[], 1), ops);
    var h := Final(Host(files, map[], map[], 1), ops);
    forall id | id in h.handles
      ensures h.handles[id] in h.refCounts && h.refCounts[h.handles[id]] >= 1
    {
      SoundClose(h, id);
    }
  }

  /** The handles given out, in order. */
  function Issued(replies: seq<Reply>): seq<nat> {
    if replies == [] then []
    else (if replies[0].Opened? then [replies[0].id] else []) + Issued(replies[1..])
  }

  /** No handle id is ever given out twice: they count up from where they are. */
  lemma {:induction false} IdsNeverReused(h: Host, ops: seq<Op>)
    ensures Issued(Replies(h, ops)) == seq(|Issued(Replies(h, ops))|, i => h.nextId + i)
    ensures Final(h, ops).nextId == h.nextId + |Issued(Replies(h, ops))|
    decreases |ops|
  {
    if ops != [] {
      var (t, r) := Apply(h, ops[0]);
      NextIdStep(h, ops[0]);
      hide Apply;
      IdsNeverReused(t, ops[1..]);
      var rest := Replies(t, ops[1..]);
      assert Replies(h, ops)[1..] == rest;
      assert Issued(Replies(h, ops)) == (if r.Opened? then [r.id] else []) + Issued(rest);
    }
  }

  lemma {:induction false} NextIdStep(h: Host, op: Op)
    ensures var (t, r) := Apply(h, op);
            if r.Opened? then r.id == h.nextId && t.nextId == h.nextId + 1 else t.nextId == h.nextId
  {
  }
}
