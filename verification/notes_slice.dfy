/** The client's notes state (`features/notes/notesSlice.ts`): the pinned,
    active, archived and trashed lists with their paging, and the transition
    each fulfilled or rejected request makes. Requests themselves are inputs:
    each action carries the note or page the server answered with. */
module NotesSlice {
  import opened Wrappers
  import opened Seqs
  import NoteController

  /** The fields of a note the reducer reads, and the ones it carries along. */
  datatype ClientNote = ClientNote(id: string, isPinned: bool, isArchived: bool, title: string, content: string)

  /** A page of a list, as a fetch answers it. */
  datatype PageResult = PageResult(notes: seq<ClientNote>, page: int, totalPages: int, hasNextPage: bool)

  datatype Paging = Paging(page: int, totalPages: int, hasNextPage: bool)

  datatype State = State(
    pinned: seq<ClientNote>,
    items: seq<ClientNote>,      // active notes
    archived: seq<ClientNote>,
    trash: seq<ClientNote>,
    main: Paging,
    archive: Paging,
    trashPaging: Paging,
    isLoading: bool,
    error: Option<string>)

  const FirstPage := Paging(1, 1, false)

  /** `initialState`. */
  const Initial := State([], [], [], [], FirstPage, FirstPage, FirstPage, false, None)

  datatype Thunk =
    | CreateNote | UpdateNoteStatus | FetchNotes | FetchPinnedNotes
    | FetchArchivedNotes | FetchTrashNotes | RestoreNote | DeleteNoteForever | SoftDeleteNote

  /** The settled or pending request an action reports. */
  datatype Action =
    | Pending(thunk: Thunk)
    | Rejected(thunk: Thunk, payload: Option<string>)
    | Created(note: ClientNote)
    | StatusUpdated(note: ClientNote)
    | PinnedFetched(notes: seq<ClientNote>)
    | NotesFetched(result: PageResult)
    | ArchivedFetched(result: PageResult)
    | TrashFetched(result: PageResult)
    | Restored(note: ClientNote)
    | DeletedForever(id: string)
    | SoftDeleted(note: ClientNote)

  /** The requests whose pending and rejected cases the slice handles; the
      others' pending and rejected actions leave the state alone (a rejected
      restore or delete only raises a toast). */
  predicate TracksLoading(t: Thunk) {
    t.CreateNote? || t.UpdateNoteStatus? || t.FetchNotes? || t.FetchArchivedNotes? || t.FetchTrashNotes?
  }

  /** `list.filter(n => n._id !== id)`. */
  function WithoutId(list: seq<ClientNote>, id: string): (r: seq<ClientNote>)
    ensures |r| <= |list|
    ensures forall k :: 0 <= k < |r| ==> r[k].id != id && r[k] in list
    ensures forall n :: n in list && n.id != id ==> n in r
  {
    Filter(list, (n: ClientNote) => n.id != id)
  }

  /** A first page replaces the list; any other page is appended to it. */
  function ReplaceOrAppend(list: seq<ClientNote>, result: PageResult): (r: seq<ClientNote>)
    ensures result.page == 1 ==> r == result.notes
    ensures result.page != 1 ==> |r| == |list| + |result.notes| && r[..|list|] == list && r[|list|..] == result.notes
  {
    if result.page == 1 then result.notes else list + result.notes
  }

  /** The status reducer as written: a pinned note is taken out of the active
      list and put in front of the pinned one, an unpinned note the other way
      round; the list it is put into is not searched for the note. */
  function StatusUpdatedAsWritten(s: State, u: ClientNote): (r: State)
    ensures r.archived == s.archived && r.trash == s.trash
    ensures r.isLoading == s.isLoading && r.error == s.error
    ensures r.main == s.main && r.archive == s.archive && r.trashPaging == s.trashPaging
    ensures u.isPinned ==>
      && |r.pinned| == |s.pinned| + 1 && r.pinned[0] == u && r.pinned[1..] == s.pinned
      && forall k :: 0 <= k < |r.items| ==> r.items[k].id != u.id
    ensures !u.isPinned ==>
      && |r.items| == |s.items| + 1 && r.items[0] == u && r.items[1..] == s.items
      && forall k :: 0 <= k < |r.pinned| ==> r.pinned[k].id != u.id
  {
    if u.isPinned then s.(items := WithoutId(s.items, u.id), pinned := [u] + s.pinned)
    else s.(pinned := WithoutId(s.pinned, u.id), items := [u] + s.items)
  }

  /** The status reducer with the note's previous copy removed from both
      lists, so that the updated note replaces it. */
  function MoveUpdated(s: State, u: ClientNote): (r: State)
    ensures r.archived == s.archived && r.trash == s.trash
    ensures r.isLoading == s.isLoading && r.error == s.error
    ensures r.main == s.main && r.archive == s.archive && r.trashPaging == s.trashPaging
    ensures u.isPinned ==> |r.pinned| > 0 && r.pinned[0] == u && forall k :: 0 <= k < |r.items| ==> r.items[k].id != u.id
    ensures !u.isPinned ==> |r.items| > 0 && r.items[0] == u && forall k :: 0 <= k < |r.pinned| ==> r.pinned[k].id != u.id
  {
    var pinned := WithoutId(s.pinned, u.id);
    var items := WithoutId(s.items, u.id);
    if u.isPinned then s.(pinned := [u] + pinned, items := items)
    else s.(pinned := pinned, items := [u] + items)
  }

  /** The slice's reducer, with the status case as written. */
  function Reduce(s: State, a: Action): (r: State)
    ensures a.Pending? || a.Rejected? ==>
      r.pinned == s.pinned && r.items == s.items && r.archived == s.archived && r.trash == s.trash
    ensures (r.isLoading != s.isLoading || r.error != s.error) ==>
      !(a.Pending? || a.Rejected?) || TracksLoading(a.thunk)
    ensures !a.ArchivedFetched? ==> r.archived == s.archived && r.archive == s.archive
    ensures !(a.TrashFetched? || a.Restored? || a.DeletedForever? || a.SoftDeleted?) ==> r.trash == s.trash
    ensures a.DeletedForever? || a.ArchivedFetched? || a.TrashFetched? ==> r.pinned == s.pinned && r.items == s.items
  {
    match a
    case Pending(t) => if TracksLoading(t) then s.(isLoading := true, error := None) else s
    case Rejected(t, p) => if TracksLoading(t) then s.(isLoading := false, error := p) else s
    case Created(n) => s.(isLoading := false, items := [n] + s.items)
    case StatusUpdated(u) => StatusUpdatedAsWritten(s, u)
    case PinnedFetched(ns) => s.(pinned := ns)
    case NotesFetched(r) =>
      s.(items := ReplaceOrAppend(s.items, r), main := s.main.(page := r.page, hasNextPage := r.hasNextPage))
    case ArchivedFetched(r) =>
      s.(isLoading := false, archived := ReplaceOrAppend(s.archived, r),
         archive := Paging(r.page, r.totalPages, r.hasNextPage))
    case TrashFetched(r) =>
      s.(isLoading := false, trash := ReplaceOrAppend(s.trash, r),
         trashPaging := Paging(r.page, r.totalPages, r.hasNextPage))
    case Restored(n) =>
      var s' := s.(trash := WithoutId(s.trash, n.id));
      if n.isPinned then s'.(pinned := [n] + s.pinned) else s'.(items := [n] + s.items)
    case DeletedForever(id) => s.(trash := WithoutId(s.trash, id))
    case SoftDeleted(n) =>
      s.(items := WithoutId(s.items, n.id), pinned := WithoutId(s.pinned, n.id), trash := [n] + s.trash)
  }

  /** The state after a run of actions, the last one applied last. */
  function Run(s: State, actions: seq<Action>): State
    decreases |actions|
  {
    if |actions| == 0 then s
    else Reduce(Run(s, actions[..|actions| - 1]), actions[|actions| - 1])
  }

  // ------------------------------------------------------------ lemmas

  /** Pending requests that the slice tracks set the loading flag and clear
      the error, and rejections record the payload; nothing else moves. */
  lemma LoadingCycle(s: State, t: Thunk, p: Option<string>)
    requires TracksLoading(t)
    ensures Reduce(s, Pending(t)) == s.(isLoading := true, error := None)
    ensures Reduce(Reduce(s, Pending(t)), Rejected(t, p)) == s.(isLoading := false, error := p)
  {
  }

  /** A created note goes in front of the active list; the other lists stay. */
  lemma CreatedPrepends(s: State, n: ClientNote)
    ensures var r := Reduce(s, Created(n));
      && r.items == [n] + s.items && |r.items| == |s.items| + 1
      && r.pinned == s.pinned && r.archived == s.archived && r.trash == s.trash
      && !r.isLoading
  {
  }

  /** The status reducer as written duplicates a pinned note whose status
      changes while it stays pinned, as archiving it does: the old copy stays
      in the pinned list behind the new one. */
  lemma ArchivingPinnedNoteDuplicates(s: State, n: ClientNote)
    requires n.isPinned && s.pinned == [n] && s.items == []
    ensures var u := n.(isArchived := true);
      StatusUpdatedAsWritten(s, u).pinned == [u, n] && Reduce(s, StatusUpdated(u)).pinned == [u, n]
  {
  }

  predicate UniqueIds(list: seq<ClientNote>) {
    forall i, j :: 0 <= i < j < |list| ==> list[i].id != list[j].id
  }

  lemma {:induction false} WithoutIdUnique(list: seq<ClientNote>, id: string)
    requires UniqueIds(list)
    ensures UniqueIds(WithoutId(list, id))
    decreases |list|
  {
    if |list| > 0 {
      var rest := WithoutId(list[1..], id);
      WithoutIdUnique(list[1..], id);
      assert UniqueIds(list[1..]) by {
        forall i, j | 0 <= i < j < |list[1..]| ensures list[1..][i].id != list[1..][j].id {
          assert list[1..][i] == list[i + 1] && list[1..][j] == list[j + 1];
        }
      }
      if list[0].id != id {
        assert WithoutId(list, id) == [list[0]] + rest;
        forall k | 0 <= k < |rest| ensures rest[k].id != list[0].id {
          var m :| 0 <= m < |list[1..]| && list[1..][m] == rest[k];
          assert list[m + 1] == rest[k];
        }
      } else {
        assert WithoutId(list, id) == rest;
      }
    }
  }

  /** Ids are unique across two lists exactly when each list's are and no id
      is in both. */
  lemma UniqueConcat(a: seq<ClientNote>, b: seq<ClientNote>)
    ensures UniqueIds(a + b) <==>
      UniqueIds(a) && UniqueIds(b) && forall i, j :: 0 <= i < |a| && 0 <= j < |b| ==> a[i].id != b[j].id
  {
    if UniqueIds(a) && UniqueIds(b) && forall i, j :: 0 <= i < |a| && 0 <= j < |b| ==> a[i].id != b[j].id {
      forall i, j | 0 <= i < j < |a + b| ensures (a + b)[i].id != (a + b)[j].id {
        if j < |a| {
        } else if i < |a| {
          assert (a + b)[j] == b[j - |a|];
        } else {
          assert (a + b)[i] == b[i - |a|] && (a + b)[j] == b[j - |a|];
        }
      }
    }
    if UniqueIds(a + b) {
      forall i, j | 0 <= i < j < |a| ensures a[i].id != a[j].id {
        assert a[i] == (a + b)[i] && a[j] == (a + b)[j];
      }
      forall i, j | 0 <= i < j < |b| ensures b[i].id != b[j].id {
        assert b[i] == (a + b)[i + |a|] && b[j] == (a + b)[j + |a|];
      }
      forall i, j | 0 <= i < |a| && 0 <= j < |b| ensures a[i].id != b[j].id {
        assert a[i] == (a + b)[i] && b[j] == (a + b)[j + |a|];
      }
    }
  }

  /** The ids of the shown lists of the state: pinned, then active. */
  predicate ShownUnique(s: State) {
    UniqueIds(s.pinned + s.items)
  }

  /** Taking one id out of two lists keeps their ids unique together. */
  lemma RemoveFromBoth(a: seq<ClientNote>, b: seq<ClientNote>, id: string)
    requires UniqueIds(a + b)
    ensures UniqueIds(WithoutId(a, id) + WithoutId(b, id))
  {
    var p := WithoutId(a, id);
    var i := WithoutId(b, id);
    UniqueConcat(a, b);
    WithoutIdUnique(a, id);
    WithoutIdUnique(b, id);
    forall x, y | 0 <= x < |p| && 0 <= y < |i| ensures p[x].id != i[y].id {
      var x' :| 0 <= x' < |a| && a[x'] == p[x];
      var y' :| 0 <= y' < |b| && b[y'] == i[y];
    }
    UniqueConcat(p, i);
  }

  /** A note whose id is in neither list can go in front of either. */
  lemma InsertUnique(u: ClientNote, p: seq<ClientNote>, i: seq<ClientNote>)
    requires UniqueIds(p + i)
    requires forall k :: 0 <= k < |p| ==> p[k].id != u.id
    requires forall k :: 0 <= k < |i| ==> i[k].id != u.id
    ensures UniqueIds([u] + p + i) && UniqueIds(p + ([u] + i))
  {
    UniqueConcat(p, i);
    assert [u] + p + i == [u] + (p + i);
    UniqueConcat([u], p + i);
    UniqueConcat([u], i);
    UniqueConcat(p, [u] + i);
  }

  /** The corrected status update keeps every shown note once: if the
      pinned and active lists held each id once, they still do, the updated
      note among them. */
  lemma StatusKeepsShownUnique(s: State, u: ClientNote)
    requires ShownUnique(s)
    ensures ShownUnique(MoveUpdated(s, u))
    ensures var r := MoveUpdated(s, u); u in r.pinned + r.items
  {
    var p := WithoutId(s.pinned, u.id);
    var i := WithoutId(s.items, u.id);
    RemoveFromBoth(s.pinned, s.items, u.id);
    InsertUnique(u, p, i);
    var r := MoveUpdated(s, u);
    if u.isPinned {
      assert r.pinned + r.items == [u] + p + i;
    } else {
      assert r.pinned + r.items == p + ([u] + i);
    }
  }

  /** Filtering by id leaves a list as it is exactly when no entry has the
      id. */
  lemma {:induction false} WithoutIdUnchanged(list: seq<ClientNote>, id: string)
    ensures WithoutId(list, id) == list <==> forall k :: 0 <= k < |list| ==> list[k].id != id
    decreases |list|
  {
    if forall k :: 0 <= k < |list| ==> list[k].id != id {
      if |list| > 0 {
        assert forall k :: 0 <= k < |list[1..]| ==> list[1..][k] == list[k + 1];
        WithoutIdUnchanged(list[1..], id);
        assert WithoutId(list, id) == [list[0]] + WithoutId(list[1..], id);
        assert list == [list[0]] + list[1..];
      }
    }
  }

  /** The status reducer as written and the corrected one agree exactly when
      the list the note enters holds no copy of it; otherwise the written one
      keeps the stale copy. */
  lemma AsWrittenAgreesExactlyWhenAbsent(s: State, u: ClientNote)
    ensures StatusUpdatedAsWritten(s, u) == MoveUpdated(s, u) <==>
      if u.isPinned then forall k :: 0 <= k < |s.pinned| ==> s.pinned[k].id != u.id
      else forall k :: 0 <= k < |s.items| ==> s.items[k].id != u.id
  {
    var w := StatusUpdatedAsWritten(s, u);
    var m := MoveUpdated(s, u);
    var entered := if u.isPinned then s.pinned else s.items;
    WithoutIdUnchanged(entered, u.id);
    if w == m {
      if u.isPinned {
        assert s.pinned == w.pinned[1..] == m.pinned[1..] == WithoutId(s.pinned, u.id);
      } else {
        assert s.items == w.items[1..] == m.items[1..] == WithoutId(s.items, u.id);
      }
    }
  }

  /** A status update does not reset the loading flag its pending case set,
      and touches neither the archive nor the trash. */
  lemma StatusLeavesLoading(s: State, u: ClientNote)
    ensures var r := Reduce(Reduce(s, Pending(UpdateNoteStatus)), StatusUpdated(u));
      r.isLoading && r.archived == s.archived && r.trash == s.trash
  {
  }

  /** The first page of a list replaces whatever was shown, so what follows
      a first page does not depend on the state before it. */
  lemma FirstPageForgets(s: State, s': State, r: PageResult)
    requires r.page == 1
    ensures Reduce(s, NotesFetched(r)).items == Reduce(s', NotesFetched(r)).items == r.notes
    ensures Reduce(s, ArchivedFetched(r)).archived == Reduce(s', ArchivedFetched(r)).archived == r.notes
    ensures Reduce(s, TrashFetched(r)).trash == Reduce(s', TrashFetched(r)).trash == r.notes
  {
  }

  /** Only the archive and trash fetches clear the loading flag; the main
      fetch keeps it set from its pending case. */
  lemma MainFetchLeavesLoading(s: State, r: PageResult)
    ensures Reduce(Reduce(s, Pending(FetchNotes)), NotesFetched(r)).isLoading
    ensures !Reduce(Reduce(s, Pending(FetchArchivedNotes)), ArchivedFetched(r)).isLoading
    ensures !Reduce(Reduce(s, Pending(FetchTrashNotes)), TrashFetched(r)).isLoading
  {
  }

  /** The server's page `p` of a list `owned` with limit `l`. */
  predicate IsServerPage(r: PageResult, owned: seq<ClientNote>, p: nat, l: nat)
    requires p > 0
  {
    r.page == p && r.notes == NoteController.Window(owned, NoteController.PageStart(p, l), l)
  }

  function Fetches(pages: seq<PageResult>): (r: seq<Action>)
    ensures |r| == |pages| && forall k :: 0 <= k < |r| ==> r[k] == NotesFetched(pages[k])
  {
    if |pages| == 0 then [] else [NotesFetched(pages[0])] + Fetches(pages[1..])
  }

  /** Scrolling: fetching the server's pages 1, 2, ..., n of the caller's
      notes in order shows exactly the first n pages' worth of them, in the
      server's order, whatever was shown before. */
  lemma {:induction false} ScrollShowsPrefix(s: State, owned: seq<ClientNote>, l: nat, pages: seq<PageResult>)
    requires |pages| > 0
    requires forall k :: 0 <= k < |pages| ==> IsServerPage(pages[k], owned, k + 1, l)
    ensures Run(s, Fetches(pages)).items
         == NoteController.Window(owned, 0, NoteController.PageStart(|pages| + 1, l))
    decreases |pages|
  {
    var n := |pages|;
    var acts := Fetches(pages);
    var before := pages[..n - 1];
    assert acts[..n - 1] == Fetches(before);
    var prev := Run(s, Fetches(before));
    assert Run(s, acts) == Reduce(prev, NotesFetched(pages[n - 1]));
    if n > 1 {
      assert forall k :: 0 <= k < |before| ==> before[k] == pages[k];
      ScrollShowsPrefix(s, owned, l, before);
    }
    ScrollStep(prev, owned, l, n, pages[n - 1]);
  }

  /** One scrolling step: after the first `n - 1` pages, page `n` extends
      what is shown by the next window of the caller's notes. */
  lemma ScrollStep(prev: State, owned: seq<ClientNote>, l: nat, n: nat, r: PageResult)
    requires n > 0 && IsServerPage(r, owned, n, l)
    requires n > 1 ==> prev.items == NoteController.Window(owned, 0, NoteController.PageStart(n, l))
    ensures Reduce(prev, NotesFetched(r)).items == NoteController.Window(owned, 0, NoteController.PageStart(n + 1, l))
  {
    NoteController.PageStartNext(n, l);
    var start := NoteController.PageStart(n, l);
    if n == 1 {
      assert start == 0;
    } else {
      NoteController.WindowAdjacent(owned, 0, start, l);
    }
  }

  /** A note restored from the trash leaves it, every copy, and goes in front
      of the list its pinned flag names. */
  lemma RestoredMoves(s: State, n: ClientNote)
    ensures var r := Reduce(s, Restored(n));
      && (forall k :: 0 <= k < |r.trash| ==> r.trash[k].id != n.id)
      && (n.isPinned ==> r.pinned == [n] + s.pinned && r.items == s.items)
      && (!n.isPinned ==> r.items == [n] + s.items && r.pinned == s.pinned)
      && r.archived == s.archived
  {
  }

  /** Deleting forever removes the note from the trash only. */
  lemma DeletedForeverTrashOnly(s: State, id: string)
    ensures var r := Reduce(s, DeletedForever(id));
      && r == s.(trash := r.trash)
      && forall n :: n in s.trash ==> (n in r.trash <==> n.id != id)
  {
  }

  /** Moving to the trash takes the note out of both shown lists and puts it
      in front of the trash; the archive is untouched. */
  lemma SoftDeletedMoves(s: State, n: ClientNote)
    ensures var r := Reduce(s, SoftDeleted(n));
      && (forall k :: 0 <= k < |r.items| ==> r.items[k].id != n.id)
      && (forall k :: 0 <= k < |r.pinned| ==> r.pinned[k].id != n.id)
      && r.trash == [n] + s.trash && r.archived == s.archived
  {
  }

  /** A note moved to the trash and then restored is shown again, once, in
      front of the list its flag names, and is no longer in the trash. */
  lemma {:induction false} TrashThenRestore(s: State, n: ClientNote)
    requires ShownUnique(s)
    ensures var r := Reduce(Reduce(s, SoftDeleted(n)), Restored(n));
      && ShownUnique(r) && n in r.pinned + r.items
      && forall k :: 0 <= k < |r.trash| ==> r.trash[k].id != n.id
  {
    var p := WithoutId(s.pinned, n.id);
    var i := WithoutId(s.items, n.id);
    RemoveFromBoth(s.pinned, s.items, n.id);
    InsertUnique(n, p, i);
    var t := s.(items := i, pinned := p, trash := [n] + s.trash);
    assert Reduce(s, SoftDeleted(n)) == t;
    var r := Reduce(t, Restored(n));
    if n.isPinned {
      assert r.pinned + r.items == [n] + p + i;
    } else {
      assert r.pinned + r.items == p + ([n] + i);
    }
  }
}
