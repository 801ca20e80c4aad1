/**
 `atomic_write_text` (src/atomic.py) under power loss.

 A volume keeps, for every file, its text and whether that text has been synced, and for every name
 the binding programs see and the set of bindings the disk may hold (`Possible`), which grows with
 every change and collapses when the directory is synced.  A power loss keeps, name by name and
 independently, one of the possible bindings; a file that was not synced may hold anything.
 */
module AtomicWrite {
  import opened Wrappers

  datatype Inode = Inode(text: string, synced: bool)

  datatype Vol = Vol(inodes: map<nat, Inode>, next: nat, names: map<string, nat>, unsynced: map<string, set<Option<nat>>>) {

    function Bound(name: string): Option<nat> {
      if name in names then Some(names[name]) else None
    }

    /** What the disk may hold for a name. */
    function Possible(name: string): set<Option<nat>> {
      if name in unsynced then unsynced[name] else {Bound(name)}
    }

    /** What a program reads. */
    function Read(name: string): Option<string> {
      if name in names && names[name] in inodes then Some(inodes[names[name]].text) else None
    }

    function Bind(name: string, ino: nat): Vol {
      this.(names := names[name := ino], unsynced := unsynced[name := Possible(name) + {Some(ino)}])
    }

    function Unbind(name: string): Vol {
      if name in names
      then this.(names := names - {name}, unsynced := unsynced[name := Possible(name) + {None}])
      else this
    }

    // ---- the system calls

    function Mkstemp(name: string): Vol {
      this.(inodes := inodes[next := Inode("", false)], next := next + 1).Bind(name, next)
    }

    function WriteText(ino: nat, text: string): Vol {
      this.(inodes := inodes[ino := Inode(text, false)])
    }

    function FsyncFile(ino: nat): Vol {
      if ino in inodes then this.(inodes := inodes[ino := inodes[ino].(synced := true)]) else this
    }

    function Rename(from: string, to: string): Vol {
      if from in names then Unbind(from).Bind(to, names[from]) else this
    }

    function FsyncDir(): Vol {
      this.(unsynced := map[])
    }
  }

  /** Every binding there may be points to a file. */
  ghost predicate VolOk(v: Vol) {
    && (forall i :: i in v.inodes ==> i < v.next)
    && (forall name, i :: Some(i) in v.Possible(name) ==> i in v.inodes)
    && (forall name :: v.Bound(name) in v.Possible(name))
  }

  /** The texts a name may have after a power loss; `None` means the name is missing. */
  ghost predicate MayHold(v: Vol, name: string, text: Option<string>) {
    match text
    case None => None in v.Possible(name)
    case Some(t) => exists i :: Some(i) in v.Possible(name) && i in v.inodes && (v.inodes[i].synced ==> v.inodes[i].text == t)
  }

  /** A volume as it comes up again after a power loss: everything on it is synced. */
  ghost predicate PowerLoss(v: Vol, v': Vol) {
    && VolOk(v') && v'.unsynced == map[]
    && (forall i :: i in v'.inodes ==> v'.inodes[i].synced)
    && (forall name :: MayHold(v, name, v'.Read(name)))
  }

  /** Every text the name may hold is a synced one. */
  ghost predicate Stable(v: Vol, name: string) {
    forall i :: Some(i) in v.Possible(name) ==> i in v.inodes && v.inodes[i].synced
  }

  // ---------------------------------------------------------------- the states of one call

  /** Where a call fails, if anywhere; a failing write may have written anything. */
  datatype Fault =
    | NoFault | MkstempFails | ChmodFails | WriteFails(partial: string) | SyncFails | ReplaceFails | DirSyncFails

  /**
   All the states a call goes through, the last one being the state it leaves.  The `finally` clause
   unlinks the temporary name, if it is still there, on every path once there is one.
   */
  function Trace(v: Vol, path: string, temp: string, data: string, fault: Fault): seq<Vol> {
    var ino := v.next;
    var v1 := v.Mkstemp(temp);
    var v2 := v1.WriteText(ino, if fault.WriteFails? then fault.partial else data);
    if fault.MkstempFails? then [v]
    else if fault.ChmodFails? then [v1, v1.Unbind(temp)]
    else if fault.WriteFails? || fault.SyncFails? then [v1, v2, v2.Unbind(temp)]
    else
      var v3 := v2.FsyncFile(ino);
      if fault.ReplaceFails? then [v1, v2, v3, v3.Unbind(temp)]
      else
        var v4 := v3.Rename(temp, path);
        if fault.DirSyncFails? then [v1, v2, v3, v4, v4.Unbind(temp)]
        else
          var v5 := v4.FsyncDir();
          [v1, v2, v3, v4, v5, v5.Unbind(temp)]
  }

  /** What holds in every state of a call: the disk has an old text or all of the new one. */
  ghost predicate Untorn(v: Vol, s: Vol, path: string, data: string) {
    && VolOk(s) && Stable(s, path)
    && forall text :: MayHold(s, path, text) ==> MayHold(v, path, text) || text == Some(data)
  }

  lemma HeldIsPossible(v: Vol, path: string, i: nat)
    requires Some(i) in v.Possible(path) && i in v.inodes
    ensures MayHold(v, path, Some(v.inodes[i].text))
  {
  }

  /** Texts of old bindings are unaffected by anything that happens to the new file. */
  lemma OldTexts(v: Vol, s: Vol, path: string, data: string)
    requires VolOk(v) && Stable(v, path)
    requires VolOk(s)
    requires forall b :: b in s.Possible(path) ==> b in v.Possible(path) || b == Some(v.next)
    requires forall i :: i in v.inodes ==> i in s.inodes && s.inodes[i] == v.inodes[i]
    requires Some(v.next) in s.Possible(path) ==> v.next in s.inodes && s.inodes[v.next] == Inode(data, true)
    ensures Untorn(v, s, path, data)
  {
    forall text | MayHold(s, path, text) ensures MayHold(v, path, text) || text == Some(data) {
      if text.Some? {
        var i :| Some(i) in s.Possible(path) && i in s.inodes && (s.inodes[i].synced ==> s.inodes[i].text == text.value);
        if i != v.next {
          assert Some(i) in v.Possible(path);
          HeldIsPossible(v, path, i);
        }
      }
    }
  }

  // ---- what each call does to the invariant and to the possible bindings

  lemma MkstempOk(v: Vol, temp: string)
    requires VolOk(v)
    ensures var w := v.Mkstemp(temp);
            && VolOk(w) && v.next !in v.inodes
            && w.inodes == v.inodes[v.next := Inode("", false)] && w.names == v.names[temp := v.next]
            && forall name :: w.Possible(name) == v.Possible(name) + (if name == temp then {Some(v.next)} else {})
  {
    var w := v.Mkstemp(temp);
    assert v.next !in v.inodes;
    forall name ensures w.Possible(name) == v.Possible(name) + (if name == temp then {Some(v.next)} else {}) {
    }
    forall name, i | Some(i) in w.Possible(name) ensures i in w.inodes {
      assert Some(i) in v.Possible(name) || i == v.next;
    }
    forall name ensures w.Bound(name) in w.Possible(name) {
      assert v.Bound(name) in v.Possible(name);
    }
  }

  lemma SetInodeOk(v: Vol, ino: nat, inode: Inode)
    requires VolOk(v) && ino in v.inodes
    ensures var w := v.(inodes := v.inodes[ino := inode]);
            VolOk(w) && forall name :: w.Possible(name) == v.Possible(name)
  {
    var w := v.(inodes := v.inodes[ino := inode]);
    assert forall name :: w.Bound(name) == v.Bound(name) && w.Possible(name) == v.Possible(name);
    forall name, i | Some(i) in w.Possible(name) ensures i in w.inodes {
      assert Some(i) in v.Possible(name);
    }
  }

  lemma RenameOk(v: Vol, from: string, to: string)
    requires VolOk(v) && from in v.names && from != to
    ensures var w := v.Rename(from, to);
            && VolOk(w) && w.inodes == v.inodes && w.next == v.next
            && w.names == (v.names - {from})[to := v.names[from]]
            && w.Possible(to) == v.Possible(to) + {Some(v.names[from])}
  {
    var w, ino := v.Rename(from, to), v.names[from];
    assert v.Bound(from) in v.Possible(from);
    forall name ensures w.Possible(name) ==
      v.Possible(name) + (if name == from then {None} else if name == to then {Some(ino)} else {})
    {
    }
    forall name, i | Some(i) in w.Possible(name) ensures i in w.inodes {
      assert Some(i) in v.Possible(name) || i == ino;
    }
    forall name ensures w.Bound(name) in w.Possible(name) {
      assert v.Bound(name) in v.Possible(name);
    }
  }

  lemma FsyncDirOk(v: Vol)
    requires VolOk(v)
    ensures VolOk(v.FsyncDir()) && forall name :: v.FsyncDir().Possible(name) == {v.Bound(name)}
  {
    var w := v.FsyncDir();
    assert forall name :: w.Bound(name) == v.Bound(name) && w.Possible(name) == {v.Bound(name)};
    forall name, i | Some(i) in w.Possible(name) ensures i in w.inodes {
      assert v.Bound(name) in v.Possible(name);
    }
  }

  lemma UnbindOk(v: Vol, temp: string)
    requires VolOk(v)
    ensures VolOk(v.Unbind(temp))
  {
    var w := v.Unbind(temp);
    forall name ensures w.Possible(name) == v.Possible(name) + (if name == temp && temp in v.names then {None} else {}) {
    }
    forall name, i | Some(i) in w.Possible(name) ensures i in w.inodes {
      assert Some(i) in v.Possible(name);
    }
    forall name ensures w.Bound(name) in w.Possible(name) {
      assert v.Bound(name) in v.Possible(name);
    }
  }

  lemma UnbindKeeps(v: Vol, s: Vol, path: string, temp: string, data: string)
    requires Untorn(v, s, path, data) && temp != path
    ensures Untorn(v, s.Unbind(temp), path, data)
  {
    var s' := s.Unbind(temp);
    UnbindOk(s, temp);
    assert s'.Possible(path) == s.Possible(path);
    forall text | MayHold(s', path, text) ensures MayHold(s, path, text) {
      if text.Some? {
        var i :| Some(i) in s'.Possible(path) && i in s'.inodes && (s'.inodes[i].synced ==> s'.inodes[i].text == text.value);
        assert Some(i) in s.Possible(path);
      }
    }
  }

  /** The first three states: the new file exists under its temporary name only. */
  lemma BeforeRename(v: Vol, path: string, temp: string, text: string, data: string)
    requires VolOk(v) && Stable(v, path) && temp != path
    ensures var v1 := v.Mkstemp(temp);
            var v2 := v1.WriteText(v.next, text);
            var v3 := v2.FsyncFile(v.next);
            && Untorn(v, v1, path, data) && Untorn(v, v2, path, data) && Untorn(v, v3, path, data)
            && v3.inodes == v.inodes[v.next := Inode(text, true)]
            && v3.names == v.names[temp := v.next]
            && v3.Possible(path) == v.Possible(path)
            && v.next !in v.inodes
  {
    var v1 := v.Mkstemp(temp);
    var v2 := v1.WriteText(v.next, text);
    var v3 := v2.FsyncFile(v.next);
    StagedStates(v, path, temp, text);
    StillOld(v, v1, path, data, Inode("", false));
    StillOld(v, v2, path, data, Inode(text, false));
    StillOld(v, v3, path, data, Inode(text, true));
  }

  /** The temporary file fills up while every binding of the target stays as it was. */
  lemma StagedStates(v: Vol, path: string, temp: string, text: string)
    requires VolOk(v) && temp != path
    ensures var v1 := v.Mkstemp(temp);
            var v2 := v1.WriteText(v.next, text);
            var v3 := v2.FsyncFile(v.next);
            && VolOk(v1) && VolOk(v2) && VolOk(v3) && v.next !in v.inodes
            && v1.Possible(path) == v2.Possible(path) == v3.Possible(path) == v.Possible(path)
            && v1.inodes == v.inodes[v.next := Inode("", false)]
            && v2.inodes == v.inodes[v.next := Inode(text, false)]
            && v3.inodes == v.inodes[v.next := Inode(text, true)]
            && v3.names == v.names[temp := v.next]
  {
    var v1 := v.Mkstemp(temp);
    MkstempOk(v, temp);
    StagedText(v1, path, v.next, text);
    assert v1.inodes[v.next := Inode(text, false)] == v.inodes[v.next := Inode(text, false)];
    assert v1.inodes[v.next := Inode(text, true)] == v.inodes[v.next := Inode(text, true)];
  }

  lemma StagedText(v: Vol, path: string, ino: nat, text: string)
    requires VolOk(v) && ino in v.inodes
    ensures var w := v.WriteText(ino, text);
            && VolOk(w) && w.Possible(path) == v.Possible(path)
            && w.inodes == v.inodes[ino := Inode(text, false)] && w.names == v.names
            && VolOk(w.FsyncFile(ino)) && w.FsyncFile(ino).Possible(path) == v.Possible(path)
            && w.FsyncFile(ino).inodes == v.inodes[ino := Inode(text, true)] && w.FsyncFile(ino).names == v.names
  {
    SetInodeOk(v, ino, Inode(text, false));
    SetInodeOk(v.WriteText(ino, text), ino, Inode(text, true));
    assert v.inodes[ino := Inode(text, false)][ino := Inode(text, true)] == v.inodes[ino := Inode(text, true)];
  }

  lemma StillOld(v: Vol, s: Vol, path: string, data: string, inode: Inode)
    requires VolOk(v) && Stable(v, path) && VolOk(s) && v.next !in v.inodes
    requires s.Possible(path) == v.Possible(path) && s.inodes == v.inodes[v.next := inode]
    ensures Untorn(v, s, path, data)
  {
    assert Some(v.next) !in v.Possible(path);
    OldTexts(v, s, path, data);
  }

  lemma AfterRename(v: Vol, path: string, temp: string, data: string)
    requires VolOk(v) && Stable(v, path) && temp != path
    ensures var v4 := v.Mkstemp(temp).WriteText(v.next, data).FsyncFile(v.next).Rename(temp, path);
            && Untorn(v, v4, path, data) && Untorn(v, v4.FsyncDir(), path, data)
            && v4.Read(path) == Some(data) && temp !in v4.names
            && v4.FsyncDir().Possible(path) == {Some(v.next)}
            && v4.FsyncDir().Possible(temp) == {None}
            && v4.FsyncDir().inodes == v.inodes[v.next := Inode(data, true)]
  {
    BeforeRename(v, path, temp, data, data);
    var v3 := v.Mkstemp(temp).WriteText(v.next, data).FsyncFile(v.next);
    var v4 := v3.Rename(temp, path);
    RenameOk(v3, temp, path);
    OldTexts(v, v4, path, data);
    FsyncDirOk(v4);
    OldTexts(v, v4.FsyncDir(), path, data);
  }

  /**
   Neither sync could be left out: renamed before its text is synced, the target may come up with any text
   at all, and before the directory is synced whatever was there may come back.
   */
  lemma EachSyncIsNeeded(v: Vol, path: string, temp: string, data: string, text: string, prior: Option<string>)
    requires VolOk(v) && temp != path && MayHold(v, path, prior)
    ensures var written := v.Mkstemp(temp).WriteText(v.next, data);
            && MayHold(written.Rename(temp, path), path, Some(text))
            && MayHold(written.FsyncFile(v.next).Rename(temp, path), path, prior)
  {
    var written := v.Mkstemp(temp).WriteText(v.next, data);
    StagedStates(v, path, temp, data);
    RenameOk(written, temp, path);
    RenameOk(written.FsyncFile(v.next), temp, path);
    var early, late := written.Rename(temp, path), written.FsyncFile(v.next).Rename(temp, path);
    assert Some(v.next) in early.Possible(path) && !early.inodes[v.next].synced;
    if prior.Some? {
      var i :| Some(i) in v.Possible(path) && i in v.inodes && (v.inodes[i].synced ==> v.inodes[i].text == prior.value);
      assert Some(i) in late.Possible(path);
    }
  }

  /** No state of any call, failing or not, lets a power loss tear the target. */
  lemma NeverTorn(v: Vol, path: string, temp: string, data: string, fault: Fault, k: nat)
    requires VolOk(v) && Stable(v, path) && temp != path
    requires k < |Trace(v, path, temp, data, fault)|
    ensures Untorn(v, Trace(v, path, temp, data, fault)[k], path, data)
  {
    BeforeRename(v, path, temp, if fault.WriteFails? then fault.partial else data, data);
    var s := Trace(v, path, temp, data, fault);
    if fault.NoFault? || fault.DirSyncFails? {
      AfterRename(v, path, temp, data);
    }
    if k == |s| - 1 && k > 0 {
      UnbindKeeps(v, s[k - 1], path, temp, data);
    }
  }

  /** After a normal return only the new text can survive, and no temporary name. */
  lemma ReturnIsDurable(v: Vol, path: string, temp: string, data: string)
    requires VolOk(v) && Stable(v, path) && temp != path
    ensures var s := Trace(v, path, temp, data, NoFault);
            var end := s[|s| - 1];
            && (forall text :: MayHold(end, path, text) <==> text == Some(data))
            && (forall text :: MayHold(end, temp, text) <==> text == None)
            && end.Read(path) == Some(data) && temp !in end.names
  {
    AfterRename(v, path, temp, data);
    var s := Trace(v, path, temp, data, NoFault);
    var end := s[|s| - 1];
    assert end == s[4];
    HeldIsPossible(end, path, v.next);
  }

  /**
   A call that fails before the rename leaves the target as it was.  No call leaves its temporary name,
   and one that could not make its temporary file leaves everything.
   */
  lemma FailureKeepsOld(v: Vol, path: string, temp: string, data: string, fault: Fault)
    requires VolOk(v) && Stable(v, path) && temp != path && !fault.NoFault?
    ensures var s := Trace(v, path, temp, data, fault);
            var end := s[|s| - 1];
            && (if fault.MkstempFails? then end == v else temp !in end.names)
            && (end.Read(path) == if fault.DirSyncFails? then Some(data) else v.Read(path))
            && (!fault.DirSyncFails? ==> end.Possible(path) == v.Possible(path))
  {
    BeforeRename(v, path, temp, if fault.WriteFails? then fault.partial else data, data);
    if fault.DirSyncFails? {
      AfterRename(v, path, temp, data);
    }
    assert v.Bound(path) in v.Possible(path);
  }

  /** All that a caller is promised about the states of a call. */
  ghost predicate Promise(v: Vol, path: string, temp: string, data: string, fault: Fault, s: seq<Vol>) {
    && |s| > 0
    && (forall k :: 0 <= k < |s| ==> Untorn(v, s[k], path, data))
    && var end := s[|s| - 1];
       && (if fault.MkstempFails? then end == v else temp !in end.names)
       && (fault.NoFault? ==> end.Read(path) == Some(data) && forall text :: MayHold(end, path, text) <==> text == Some(data))
       && (!fault.NoFault? && !fault.DirSyncFails? ==> end.Read(path) == v.Read(path))
  }

  lemma TraceKeepsPromise(v: Vol, path: string, temp: string, data: string, fault: Fault)
    requires VolOk(v) && Stable(v, path) && temp != path
    ensures Promise(v, path, temp, data, fault, Trace(v, path, temp, data, fault))
  {
    var s := Trace(v, path, temp, data, fault);
    forall k | 0 <= k < |s| ensures Untorn(v, s[k], path, data) {
      NeverTorn(v, path, temp, data, fault, k);
    }
    if fault.NoFault? {
      ReturnIsDurable(v, path, temp, data);
    } else {
      FailureKeepsOld(v, path, temp, data, fault);
    }
  }

  // ---------------------------------------------------------------- whole histories

  /** One call: it runs to its end, or the power goes at some state and the volume comes up as `up`. */
  datatype Episode =
    | Call(temp: string, data: string, fault: Fault)
    | CutOff(temp: string, data: string, fault: Fault, at: nat, up: Vol)

  ghost predicate Possibly(v: Vol, path: string, e: Episode) {
    && e.temp != path
    && (e.CutOff? ==> e.at < |Trace(v, path, e.temp, e.data, e.fault)|
                      && PowerLoss(Trace(v, path, e.temp, e.data, e.fault)[e.at], e.up))
  }

  function After(v: Vol, path: string, e: Episode): Vol {
    match e
    case Call(temp, data, fault) => var s := Trace(v, path, temp, data, fault); s[|s| - 1]
    case CutOff(_, _, _, _, up) => up
  }

  ghost predicate History(v: Vol, path: string, es: seq<Episode>)
    decreases |es|
  {
    es == [] || (Possibly(v, path, es[0]) && History(After(v, path, es[0]), path, es[1..]))
  }

  function Replay(v: Vol, path: string, es: seq<Episode>): Vol
    decreases |es|
  {
    if es == [] then v else Replay(After(v, path, es[0]), path, es[1..])
  }

  lemma EpisodeKeeps(v: Vol, path: string, e: Episode)
    requires VolOk(v) && Stable(v, path) && Possibly(v, path, e)
    ensures Untorn(v, After(v, path, e), path, e.data)
  {
    var s := Trace(v, path, e.temp, e.data, e.fault);
    var k := if e.Call? then |s| - 1 else e.at;
    NeverTorn(v, path, e.temp, e.data, e.fault, k);
    if e.CutOff? {
      forall text | MayHold(e.up, path, text) ensures MayHold(s[k], path, text) {
        assert e.up.Possible(path) == {e.up.Bound(path)};
        assert MayHold(s[k], path, e.up.Read(path));
        if text.Some? {
          var i :| Some(i) in e.up.Possible(path) && i in e.up.inodes && (e.up.inodes[i].synced ==> e.up.inodes[i].text == text.value);
          assert e.up.Read(path) == text;
        }
      }
    }
  }

  lemma {:induction false} HistoryKeeps(v: Vol, path: string, es: seq<Episode>)
    requires VolOk(v) && Stable(v, path) && History(v, path, es)
    ensures VolOk(Replay(v, path, es)) && Stable(Replay(v, path, es), path)
    ensures forall text :: MayHold(Replay(v, path, es), path, text) ==>
              MayHold(v, path, text) || exists i :: 0 <= i < |es| && text == Some(es[i].data)
    decreases |es|
  {
    if es != [] {
      var v' := After(v, path, es[0]);
      EpisodeKeeps(v, path, es[0]);
      HistoryKeeps(v', path, es[1..]);
      forall text | MayHold(Replay(v, path, es), path, text)
        ensures MayHold(v, path, text) || exists i :: 0 <= i < |es| && text == Some(es[i].data)
      {
        if !MayHold(v', path, text) {
          var i :| 0 <= i < |es[1..]| && text == Some(es[1..][i].data);
          assert es[i + 1] == es[1..][i];
        }
      }
    }
  }

  lemma {:induction false} HistorySplit(v: Vol, path: string, before: seq<Episode>, after: seq<Episode>)
    requires History(v, path, before + after)
    ensures History(v, path, before) && History(Replay(v, path, before), path, after)
    ensures Replay(v, path, before + after) == Replay(Replay(v, path, before), path, after)
    decreases |before|
  {
    if before == [] {
      assert before + after == after;
    } else {
      assert (before + after)[1..] == before[1..] + after;
      HistorySplit(After(v, path, before[0]), path, before[1..], after);
    }
  }

  /** Right after a call that returned, its text is the only one that can be found. */
  lemma AfterReturn(u: Vol, path: string, done: Episode)
    requires VolOk(u) && Stable(u, path) && History(u, path, [done])
    requires done.Call? && done.fault.NoFault?
    ensures var w := Replay(u, path, [done]);
            && VolOk(w) && Stable(w, path)
            && forall text :: MayHold(w, path, text) ==> text == Some(done.data)
  {
    assert [done][1..] == [] && Possibly(u, path, done);
    assert Replay(u, path, [done]) == After(u, path, done);
    ReturnIsDurable(u, path, done.temp, done.data);
    EpisodeKeeps(u, path, done);
  }

  /**
   Over any history of calls, faults and power losses: what survives is the text of the last call
   that returned, or the text of a call made after it.  In particular it is never a mixture.
   */
  lemma SurvivorIsRecent(v: Vol, path: string, before: seq<Episode>, done: Episode, after: seq<Episode>, text: Option<string>)
    requires VolOk(v) && Stable(v, path)
    requires History(v, path, before + [done] + after)
    requires done.Call? && done.fault.NoFault?
    requires MayHold(Replay(v, path, before + [done] + after), path, text)
    ensures text == Some(done.data) || exists i :: 0 <= i < |after| && text == Some(after[i].data)
  {
    HistorySplit(v, path, before + [done], after);
    HistorySplit(v, path, before, [done]);
    HistoryKeeps(v, path, before);
    AfterReturn(Replay(v, path, before), path, done);
    HistoryKeeps(Replay(Replay(v, path, before), path, [done]), path, after);
  }

  // ---------------------------------------------------------------- the call itself

  class Volume {
    var disk: Vol
    ghost var history: seq<Vol>   // every state the disk has been in

    constructor (disk: Vol)
      ensures this.disk == disk && history == []
    {
      this.disk := disk;
      history := [];
    }

    method Mkstemp(name: string) returns (ino: nat)
      modifies this
      ensures ino == old(disk.next) && disk == old(disk).Mkstemp(name) && history == old(history) + [disk]
    {
      ino := disk.next;
      disk := disk.Mkstemp(name);
      history := history + [disk];
    }

    /** A failed attempt at a temporary file. */
    method MkstempInVain()
      modifies this
      ensures disk == old(disk) && history == old(history) + [disk]
    {
      history := history + [disk];
    }

    method Write(ino: nat, text: string)
      modifies this
      ensures disk == old(disk).WriteText(ino, text) && history == old(history) + [disk]
    {
      disk := disk.WriteText(ino, text);
      history := history + [disk];
    }

    method Fsync(ino: nat)
      modifies this
      ensures disk == old(disk).FsyncFile(ino) && history == old(history) + [disk]
    {
      disk := disk.FsyncFile(ino);
      history := history + [disk];
    }

    method Replace(from: string, to: string)
      modifies this
      ensures disk == old(disk).Rename(from, to) && history == old(history) + [disk]
    {
      disk := disk.Rename(from, to);
      history := history + [disk];
    }

    method FsyncDir()
      modifies this
      ensures disk == old(disk).FsyncDir() && history == old(history) + [disk]
    {
      disk := disk.FsyncDir();
      history := history + [disk];
    }

    method Unlink(name: string)
      modifies this
      ensures disk == old(disk).Unbind(name) && history == old(history) + [disk]
    {
      disk := disk.Unbind(name);
      history := history + [disk];
    }

    /** `atomic_write_text`: write and sync a temporary file, rename it, sync the directory. */
    method AtomicWriteText(path: string, temp: string, data: string, fault: Fault) returns (r: Result<()>)
      modifies this
      ensures r == if fault.NoFault? then Ok(()) else Err(Uncaught)     // an OSError
      ensures history == old(history) + Trace(old(disk), path, temp, data, fault)
      ensures disk == Trace(old(disk), path, temp, data, fault)[|Trace(old(disk), path, temp, data, fault)| - 1]
    {
      if fault.MkstempFails? {
        MkstempInVain();
        return Err(Uncaught);
      }
      var ino := Mkstemp(temp);
      if fault.ChmodFails? {
        Unlink(temp);
        return Err(Uncaught);
      }
      Write(ino, if fault.WriteFails? then fault.partial else data);
      if fault.WriteFails? || fault.SyncFails? {
        Unlink(temp);
        return Err(Uncaught);
      }
      Fsync(ino);
      if fault.ReplaceFails? {
        Unlink(temp);
        return Err(Uncaught);
      }
      Replace(temp, path);
      if fault.DirSyncFails? {
        Unlink(temp);
        return Err(Uncaught);
      }
      FsyncDir();
      Unlink(temp);
      return Ok(());
    }
  }
}
