/** The note handlers. Every one first requires an authenticated user id (set
    by the authorization gate); the handlers on a single note then check that
    the `:id` parameter is an ObjectId and act only on a note that has that id
    AND belongs to the caller, so another user's note is answered exactly as a
    missing one. */
module NoteController {
  import opened Wrappers
  import opened Text
  import opened Http
  import opened Seqs
  import opened UserModel

  /** A stored note; `owner` is the owning user's ObjectId. */
  datatype Note = Note(
    id: string,
    owner: string,
    title: string,
    content: string,
    tags: seq<string>,
    isPinned: bool,
    isArchived: bool,
    isDeleted: bool,
    backgroundColor: string)

  /** The notes collection in natural order. */
  type Notes = seq<Note>

  const DefaultBackground := "#ffffff"

  const InvalidNoteId := "Invalid note ID."
  const InvalidNoteIdFormat := "Invalid note ID format."
  const NoteNotFound := "Note not found."
  const TagsMustBeStrings := "Tags must be an array of strings."

  /** `if (!userId)`: the gate left no id, or an empty one. */
  predicate Authenticated(userId: Option<string>) {
    userId.Some? && userId.value != ""
  }

  // ------------------------------------------------------------- createNote

  /** `createNote`: a new note owned by the caller, title and content trimmed
      by the schema's setters (missing ones default to ""), not pinned,
      archived or deleted, no tags, white background. A caller id that is not
      an ObjectId fails the `owner` cast on save, and so does an id already
      taken; both reach the `catch` block. */
  function CreateNote(notes: Notes, userId: Option<string>, title: Option<string>, content: Option<string>, newId: string): (r: (Reply<Note>, Notes))
    ensures !Authenticated(userId) ==> r == (Reply(401, "User must be authenticated to create notes", None), notes)
    ensures r.0.status == 201 <==>
      && Authenticated(userId) && IsObjectId(userId.value)
      && forall k :: 0 <= k < |notes| ==> notes[k].id != newId
    ensures r.0.status == 201 ==>
      && r.0.data.Some? && r.1 == notes + [r.0.data.value]
      && var n := r.0.data.value;
      && n.id == newId && n.owner == CastObjectId(userId.value)
      && n.tags == [] && !n.isPinned && !n.isArchived && !n.isDeleted
    ensures r.0.status != 201 ==> r.1 == notes
  {
    if !Authenticated(userId) then (Reply(401, "User must be authenticated to create notes", None), notes)
    else if !IsObjectId(userId.value) || exists k :: 0 <= k < |notes| && notes[k].id == newId then
      (Reply(500, "Failed to create note.", None), notes)
    else
      var n := Note(newId, CastObjectId(userId.value), Trim(title.GetOr("")), Trim(content.GetOr("")),
                    [], false, false, false, DefaultBackground);
      (Reply(201, "Note created successfully.", Some(n)), notes + [n])
  }

  // ------------------------------------------------------------ getAllNotes

  /** `parseInt(q, 10) || fallback`: a query value that is missing, not a
      number or zero gives the fallback. */
  function QueryNumber(q: Option<string>, fallback: int): (r: int)
    ensures fallback != 0 ==> r != 0
  {
    match q
    case None => fallback
    case Some(s) =>
      match ParseInt(s)
      case None => fallback
      case Some(v) => if v == 0 then fallback else v
  }

  /** A positive decimal query value is read as itself, and with a minus
      sign as its negation. */
  lemma QueryNumberOfDecimal(n: nat, fallback: int)
    requires n > 0
    ensures QueryNumber(Some(Decimal(n)), fallback) == n
    ensures QueryNumber(Some("-" + Decimal(n)), fallback) == -(n as int)
  {
    ParseIntDecimal(n);
    ParseIntNegativeDecimal(n);
  }

  /** A missing, zero or non-numeric query value gives the fallback. */
  lemma QueryNumberFallback(fallback: int)
    ensures QueryNumber(None, fallback) == fallback
    ensures QueryNumber(Some(Decimal(0)), fallback) == fallback
    ensures QueryNumber(Some("abc"), fallback) == fallback
  {
    ParseIntDecimal(0);
    assert !IsSpace('a') && !IsDigit('a');
    ParseIntNonNumeric("abc");
  }

  function Abs(x: int): nat {
    if x < 0 then -x else x
  }

  /** `.skip(skip).limit(count)` over a result in order. */
  function Window<T>(s: seq<T>, skip: nat, count: nat): (r: seq<T>)
    ensures |r| == if skip >= |s| then 0 else if skip + count <= |s| then count else |s| - skip
    ensures forall k :: 0 <= k < |r| ==> r[k] == s[skip + k]
  {
    if skip >= |s| then []
    else if skip + count <= |s| then s[skip..skip + count]
    else s[skip..]
  }

  /** Two adjacent windows make up the window spanning both. */
  lemma WindowAdjacent<T>(s: seq<T>, skip: nat, c: nat, d: nat)
    ensures Window(s, skip, c) + Window(s, skip + c, d) == Window(s, skip, c + d)
  {
  }

  /** `find({owner})`: the caller's notes in order, whatever their flags. */
  function Owned(notes: Notes, owner: string): (r: Notes)
    ensures forall k :: 0 <= k < |r| ==> r[k].owner == owner
  {
    Filter(notes, (n: Note) => n.owner == owner)
  }

  /** The `data` of a listing. */
  datatype NotePage = NotePage(notes: seq<Note>, totalNotes: nat, page: int, limit: int)

  /** `getAllNotes` with the raw `page` and `limit` query values. The driver
      reads a negative limit as its absolute value; a negative skip makes the
      query fail. */
  function ListNotes(notes: Notes, userId: Option<string>, pageQ: Option<string>, limitQ: Option<string>): (r: Reply<NotePage>)
    ensures !Authenticated(userId) ==> r == Reply(401, "User must be authenticated to view notes", None)
    ensures r.status == 200 ==>
      && Authenticated(userId) && IsObjectId(userId.value) && r.data.Some?
      && var d := r.data.value;
      && d.page == QueryNumber(pageQ, 1) && d.limit == QueryNumber(limitQ, 10)
      && (d.page - 1) * d.limit >= 0
      && |d.notes| <= Abs(d.limit)
      && (forall k :: 0 <= k < |d.notes| ==> d.notes[k].owner == CastObjectId(userId.value) && d.notes[k] in notes)
      && d.totalNotes == |Owned(notes, CastObjectId(userId.value))|
    ensures r.status == 500 <==>
      Authenticated(userId) && ((QueryNumber(pageQ, 1) - 1) * QueryNumber(limitQ, 10) < 0 || !IsObjectId(userId.value))
  {
    if !Authenticated(userId) then Reply(401, "User must be authenticated to view notes", None)
    else
      var page := QueryNumber(pageQ, 1);
      var limit := QueryNumber(limitQ, 10);
      var skip := (page - 1) * limit;
      if skip < 0 || !IsObjectId(userId.value) then Reply(500, "Failed to list notes.", None)
      else
        var owned := Owned(notes, CastObjectId(userId.value));
        var w := Window(owned, skip, Abs(limit));
        assert forall k :: 0 <= k < |w| ==> w[k] in owned;
        Reply(200, "Notes retrieved", Some(NotePage(w, |owned|, page, limit)))
  }

  /** How many notes precede page `p` of limit `l`. */
  function PageStart(p: nat, l: nat): nat
    requires p > 0
  {
    (p - 1) * l
  }

  /** Each page starts one limit further on. */
  lemma PageStartNext(p: nat, l: nat)
    requires p > 0
    ensures PageStart(p + 1, l) == PageStart(p, l) + l
  {
    assert (p - 1) * l + l == p * l;
  }

  /** Page `p` with a positive limit `l` is the `l` notes of the caller that
      follow the first `(p - 1) * l`, and the total counts all of them. */
  lemma ListPage(notes: Notes, userId: string, pageQ: Option<string>, limitQ: Option<string>, p: nat, l: nat)
    requires userId != "" && IsObjectId(userId) && p > 0 && l > 0
    requires QueryNumber(pageQ, 1) == p && QueryNumber(limitQ, 10) == l
    ensures var owned := Owned(notes, CastObjectId(userId));
      ListNotes(notes, Some(userId), pageQ, limitQ)
        == Reply(200, "Notes retrieved", Some(NotePage(Window(owned, PageStart(p, l), l), |owned|, p, l)))
  {
    var skip := PageStart(p, l);
    var owned := Owned(notes, CastObjectId(userId));
    var r := ListNotes(notes, Some(userId), pageQ, limitQ);
    assert r.status == 200;
    assert r.data.value.page == p;
    assert r.data.value.notes == Window(owned, skip, Abs(l));
  }

  /** Pages `p` and `p + 1` of the same limit are consecutive stretches of
      the caller's notes: together they are the window of twice the size, so
      paging through never skips or repeats a note. */
  lemma ConsecutivePages<T>(owned: seq<T>, p: nat, l: nat)
    requires p > 0
    ensures Window(owned, PageStart(p, l), l) + Window(owned, PageStart(p + 1, l), l)
            == Window(owned, PageStart(p, l), 2 * l)
  {
    PageStartNext(p, l);
    WindowAdjacent(owned, PageStart(p, l), l, l);
  }

  // ------------------------------------------------- handlers on one note

  /** The handlers that act on `/:id`, with the request body parts each reads:
      `getNoteById`, `updateNote` (the body has already passed the update
      schema, which admits only `title` and `content`), `moveNoteToTrash`,
      `updateNoteStatus` (`isPinned` and `isArchived` as sent) and
      `addTagsToNote` (`tags` as sent). */
  datatype Action =
    | Read
    | Edit(title: Option<string>, content: Option<string>)
    | Trash
    | SetStatus(isPinned: Option<Json>, isArchived: Option<Json>)
    | AddTags(tags: Option<Json>)

  function UnauthorizedMessage(a: Action): string {
    if a.Read? then "User must be authenticated to view notes"
    else "User must be authenticated to access this route"
  }

  function SuccessMessage(a: Action): string {
    match a
    case Read => "Note found."
    case Edit(_, _) => "Note updated successfully."
    case Trash => "Note moved to trash successfully."
    case SetStatus(_, _) => "Note status updated successfully."
    case AddTags(_) => "Tags added successfully."
  }

  /** `Array.isArray(tags) && !tags.some(tag => typeof tag !== "string")`. */
  predicate ValidTags(tags: Option<Json>) {
    && tags.Some? && tags.value.JArr?
    && forall k :: 0 <= k < |tags.value.items| ==> tags.value.items[k].JStr?
  }

  function TagStrings(items: seq<Json>): (r: seq<string>)
    requires forall k :: 0 <= k < |items| ==> items[k].JStr?
    ensures |r| == |items| && forall k :: 0 <= k < |r| ==> r[k] == items[k].str
  {
    if |items| == 0 then [] else [items[0].str] + TagStrings(items[1..])
  }

  predicate NoDuplicates(s: seq<string>) {
    forall i, j :: 0 <= i < j < |s| ==> s[i] != s[j]
  }

  /** `$addToSet: {tags: {$each: added}}`: each added tag not yet present is
      appended, in order. The existing tags stay as they are, in front; the
      result holds exactly the old and the added tags; what is appended was
      not there before; and no duplicate is introduced. */
  function AddToSet(tags: seq<string>, added: seq<string>): (r: seq<string>)
    ensures |r| >= |tags| && r[..|tags|] == tags
    ensures forall x :: x in r <==> x in tags || x in added
    ensures forall k :: |tags| <= k < |r| ==> r[k] !in tags
    ensures NoDuplicates(tags) ==> NoDuplicates(r)
    decreases |added|
  {
    if |added| == 0 then tags
    else if added[0] in tags then AddToSet(tags, added[1..])
    else
      var r := AddToSet(tags + [added[0]], added[1..]);
      assert r[..|tags|] == (tags + [added[0]])[..|tags|];
      r
  }

  /** Adding tags that are all present already changes nothing. */
  lemma {:induction false} AddToSetPresent(tags: seq<string>, added: seq<string>)
    requires forall k :: 0 <= k < |added| ==> added[k] in tags
    ensures AddToSet(tags, added) == tags
    decreases |added|
  {
    if |added| > 0 {
      AddToSetPresent(tags, added[1..]);
    }
  }

  /** Adding the same tags twice is adding them once. */
  lemma AddToSetIdempotent(tags: seq<string>, added: seq<string>)
    ensures AddToSet(AddToSet(tags, added), added) == AddToSet(tags, added)
  {
    AddToSetPresent(AddToSet(tags, added), added);
  }

  /** `typeof v === "boolean" ? v : current`. */
  function FlagFrom(v: Option<Json>, current: bool): bool {
    if v.Some? && v.value.JBool? then v.value.b else current
  }

  /** The update each handler makes to the note it found. */
  function Apply(n: Note, a: Action): (r: Note)
    requires a.AddTags? ==> ValidTags(a.tags)
    ensures r.id == n.id && r.owner == n.owner && r.backgroundColor == n.backgroundColor
  {
    match a
    case Read => n
    case Edit(t, c) =>
      n.(title := if t.Some? then Trim(t.value) else n.title,
         content := if c.Some? then Trim(c.value) else n.content)
    case Trash => n.(isDeleted := true)
    case SetStatus(p, ar) => n.(isPinned := FlagFrom(p, n.isPinned), isArchived := FlagFrom(ar, n.isArchived))
    case AddTags(tags) => n.(tags := AddToSet(n.tags, TagStrings(tags.value.items)))
  }

  /** The query filter `{_id: noteId, owner: userId}`, both cast to ObjectIds. */
  function Scope(noteId: string, userId: string): Note -> bool
    requires IsObjectId(noteId) && IsObjectId(userId)
  {
    var id := CastObjectId(noteId);
    var owner := CastObjectId(userId);
    (n: Note) => n.id == id && n.owner == owner
  }

  /** A handler on `/:id`: the auth guard, the id check, the tags check (for
      `addTagsToNote` only), then one `findOne`/`findOneAndUpdate` on
      `{_id, owner}`. A caller id that is not an ObjectId makes that query
      throw a `CastError`, answered as a 400. Only a note of the caller with
      that id is ever changed. */
  function Handle(notes: Notes, userId: Option<string>, noteId: string, a: Action): (r: (Reply<Note>, Notes))
    ensures |r.1| == |notes|
    ensures r.0.status != 200 ==> r.1 == notes && r.0.data.None?
    ensures r.0.status == 200 ==>
      && Authenticated(userId) && IsObjectId(noteId) && IsObjectId(userId.value)
      && r.0.data.Some? && r.0.data.value.id == CastObjectId(noteId)
      && r.0.data.value.owner == CastObjectId(userId.value)
    ensures forall k :: 0 <= k < |notes| && r.1[k] != notes[k] ==>
      && Authenticated(userId) && IsObjectId(noteId) && IsObjectId(userId.value)
      && notes[k].id == CastObjectId(noteId) && notes[k].owner == CastObjectId(userId.value)
  {
    if !Authenticated(userId) then (Reply(401, UnauthorizedMessage(a), None), notes)
    else if !IsObjectId(noteId) then (Reply(400, InvalidNoteId, None), notes)
    else if a.AddTags? && !ValidTags(a.tags) then (Reply(400, TagsMustBeStrings, None), notes)
    else if !IsObjectId(userId.value) then (Reply(400, InvalidNoteIdFormat, None), notes)
    else match FirstIndex(notes, Scope(noteId, userId.value))
      case None => (Reply(404, NoteNotFound, None), notes)
      case Some(i) =>
        var n := Apply(notes[i], a);
        (Reply(200, SuccessMessage(a), Some(n)), notes[i := n])
  }

  /** Without a user id every handler answers 401 before looking at the
      collection: the answer does not depend on it and nothing is written. */
  lemma GuardFirst(notes: Notes, notes': Notes, userId: Option<string>, noteId: string, a: Action)
    requires !Authenticated(userId)
    ensures Handle(notes, userId, noteId, a) == (Reply(401, UnauthorizedMessage(a), None), notes)
    ensures Handle(notes, userId, noteId, a).0 == Handle(notes', userId, noteId, a).0
  {
  }

  /** A malformed `:id` is a 400 before any lookup. */
  lemma MalformedIdRejected(notes: Notes, userId: string, noteId: string, a: Action)
    requires userId != "" && !IsObjectId(noteId)
    ensures Handle(notes, Some(userId), noteId, a) == (Reply(400, InvalidNoteId, None), notes)
  {
  }

  /** When none of the caller's notes has the id, whether another user's note
      has it or no note does, the answer is the same 404 as for an empty
      collection, and nothing is written. */
  lemma ForeignNoteLooksMissing(notes: Notes, userId: string, noteId: string, a: Action)
    requires userId != "" && IsObjectId(noteId) && IsObjectId(userId)
    requires a.AddTags? ==> ValidTags(a.tags)
    requires forall k :: 0 <= k < |notes| ==>
      notes[k].id != CastObjectId(noteId) || notes[k].owner != CastObjectId(userId)
    ensures Handle(notes, Some(userId), noteId, a) == (Reply(404, NoteNotFound, None), notes)
    ensures Handle(notes, Some(userId), noteId, a).0 == Handle([], Some(userId), noteId, a).0
  {
  }

  /** The caller's note with that id (the first, should there be several) is
      the one answered and updated; every other note stays as it is. */
  lemma HandleFinds(notes: Notes, userId: string, noteId: string, a: Action, i: nat)
    requires userId != "" && IsObjectId(noteId) && IsObjectId(userId)
    requires a.AddTags? ==> ValidTags(a.tags)
    requires i < |notes| && notes[i].id == CastObjectId(noteId) && notes[i].owner == CastObjectId(userId)
    requires forall k :: 0 <= k < i ==> notes[k].id != CastObjectId(noteId) || notes[k].owner != CastObjectId(userId)
    ensures Handle(notes, Some(userId), noteId, a)
      == (Reply(200, SuccessMessage(a), Some(Apply(notes[i], a))), notes[i := Apply(notes[i], a)])
  {
    FirstIndexAt(notes, Scope(noteId, userId), i);
  }

  /** Moving a note to the trash twice leaves the collection as once, and the
      second call answers with the same note. */
  lemma TrashIdempotent(notes: Notes, userId: Option<string>, noteId: string)
    ensures var (r1, n1) := Handle(notes, userId, noteId, Trash);
      var (r2, n2) := Handle(n1, userId, noteId, Trash);
      n2 == n1 && r2.status == r1.status && r2.data == r1.data
  {
    var (r1, n1) := Handle(notes, userId, noteId, Trash);
    if r1.status == 200 {
      var i := FirstIndex(notes, Scope(noteId, userId.value)).value;
      assert n1[i] == notes[i].(isDeleted := true);
      assert forall k :: 0 <= k < i ==> n1[k] == notes[k];
      HandleFinds(n1, userId.value, noteId, Trash, i);
      assert n1[i := n1[i]] == n1;
    } else if Authenticated(userId) && IsObjectId(noteId) && IsObjectId(userId.value) {
      ForeignNoteLooksMissing(notes, userId.value, noteId, Trash);
    }
  }

  /** The status update copies only JSON booleans: any other value, the
      string `"true"` included, leaves the flag as it was; and no field other
      than the two flags ever changes. */
  lemma StatusCopiesOnlyBooleans(n: Note, p: Option<Json>, ar: Option<Json>)
    ensures var r := Apply(n, SetStatus(p, ar));
      && r.(isPinned := n.isPinned, isArchived := n.isArchived) == n
      && (p.Some? && p.value.JBool? ==> r.isPinned == p.value.b)
      && (!(p.Some? && p.value.JBool?) ==> r.isPinned == n.isPinned)
      && (ar.Some? && ar.value.JBool? ==> r.isArchived == ar.value.b)
      && (!(ar.Some? && ar.value.JBool?) ==> r.isArchived == n.isArchived)
  {
  }

  /** An edit stores the title and content without surrounding white space
      and touches nothing else. */
  lemma EditTrims(n: Note, t: string, c: string)
    ensures var r := Apply(n, Edit(Some(t), Some(c)));
      && r.(title := n.title, content := n.content) == n
      && r.title == Trim(t) && Trim(r.title) == r.title
      && r.content == Trim(c) && Trim(r.content) == r.content
  {
    TrimIdempotent(t);
    TrimIdempotent(c);
  }

  /** A note just created is found by its owner under its id, and by no one
      else. */
  lemma CreatedNoteReadable(notes: Notes, userId: string, other: string, title: Option<string>, content: Option<string>, newId: string)
    requires userId != "" && IsObjectId(userId)
    requires IsObjectId(newId) && Lower(newId) == newId
    requires forall k :: 0 <= k < |notes| ==> notes[k].id != newId
    requires other != "" && IsObjectId(other) && CastObjectId(other) != CastObjectId(userId)
    ensures var (c, notes') := CreateNote(notes, Some(userId), title, content, newId);
      && c.status == 201
      && Handle(notes', Some(userId), newId, Read) == (Reply(200, "Note found.", c.data), notes')
      && Handle(notes', Some(other), newId, Read) == (Reply(404, NoteNotFound, None), notes')
  {
    var (c, notes') := CreateNote(notes, Some(userId), title, content, newId);
    assert notes'[|notes|] == c.data.value;
    HandleFinds(notes', userId, newId, Read, |notes|);
    assert notes'[|notes| := notes'[|notes|]] == notes';
    ForeignNoteLooksMissing(notes', other, newId, Read);
  }
}
