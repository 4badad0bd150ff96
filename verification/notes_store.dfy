/** The second client notes store (`store/notes/notesSlice.ts`): one list of
    notes, its three request thunks, and their reducer cases. A thunk refuses
    to send anything without an access token; otherwise it sends the token as
    a Bearer credential and reports the server's answer, which is an input. */
module NotesStore {
  import opened Wrappers
  import opened Seqs
  import opened Text
  import NotesSlice
  import AuthGate

  type ClientNote = NotesSlice.ClientNote

  datatype State = State(notes: seq<ClientNote>, isLoading: bool, error: Option<string>)

  /** `initialState`. */
  const Initial := State([], false, None)

  datatype Thunk = FetchAllNotes | CreateNote | UpdateNoteStatus

  datatype Action =
    | Pending(thunk: Thunk)
    | Rejected(thunk: Thunk, payload: Option<string>)
    | AllFetched(notes: seq<ClientNote>)
    | Created(note: ClientNote)
    | StatusUpdated(note: ClientNote)

  function SameId(id: string): ClientNote -> bool {
    (n: ClientNote) => n.id == id
  }

  /** `findIndex` by id, then assignment at that index when it was found:
      the first note with the updated note's id is replaced in place. */
  function ReplaceFirst(notes: seq<ClientNote>, u: ClientNote): (r: seq<ClientNote>)
    ensures |r| == |notes|
    ensures forall k :: 0 <= k < |notes| ==> r[k] == notes[k] || (r[k] == u && notes[k].id == u.id)
    ensures (forall k :: 0 <= k < |notes| ==> notes[k].id != u.id) ==> r == notes
    ensures (exists k :: 0 <= k < |notes| && notes[k].id == u.id) ==> u in r
  {
    if |notes| == 0 then []
    else if notes[0].id == u.id then [u] + notes[1..]
    else
      var rest := ReplaceFirst(notes[1..], u);
      assert forall k :: 1 <= k < |notes| ==> notes[k] == notes[1..][k - 1];
      [notes[0]] + rest
  }

  /** The replacement agrees with the source's two steps: find the first
      index with the id, and assign there if there is one. */
  lemma {:induction false} ReplaceFirstAgrees(notes: seq<ClientNote>, u: ClientNote)
    ensures ReplaceFirst(notes, u) == match FirstIndex(notes, SameId(u.id))
      case None => notes
      case Some(i) => notes[i := u]
  {
    if |notes| > 0 && notes[0].id != u.id {
      var tail := notes[1..];
      ReplaceFirstAgrees(tail, u);
      assert ReplaceFirst(notes, u) == [notes[0]] + ReplaceFirst(tail, u);
      assert notes == [notes[0]] + tail;
      match FirstIndex(tail, SameId(u.id))
      case None =>
        assert FirstIndex(notes, SameId(u.id)) == None;
      case Some(i) =>
        assert FirstIndex(notes, SameId(u.id)) == Some(i + 1);
        ConsAssign(notes[0], tail, i, u);
    }
  }

  lemma ConsAssign(x: ClientNote, t: seq<ClientNote>, i: nat, u: ClientNote)
    requires i < |t|
    ensures [x] + t[i := u] == ([x] + t)[i + 1 := u]
  {
  }

  /** The slice's reducer. */
  function Reduce(s: State, a: Action): (r: State)
    ensures a.Pending? ==> r == s.(isLoading := true, error := None)
    ensures a.Rejected? ==> r == s.(isLoading := false, error := a.payload)
    ensures !a.Pending? ==> !r.isLoading
    ensures !a.Pending? && !a.Rejected? ==> r.error == s.error
  {
    match a
    case Pending(_) => s.(isLoading := true, error := None)
    case Rejected(_, p) => s.(isLoading := false, error := p)
    case AllFetched(ns) => s.(isLoading := false, notes := ns)
    case Created(n) => s.(isLoading := false, notes := [n] + s.notes)
    case StatusUpdated(u) => s.(isLoading := false, notes := ReplaceFirst(s.notes, u))
  }

  // ------------------------------------------------------------- thunks

  const NoAccessToken := "No access token found."

  /** What a thunk does before any request: refuse, or send this
      `Authorization` header. */
  datatype Outgoing = Refused | Sent(authorization: string)

  /** `if (!auth.accessToken) reject` (a missing or empty token is refused);
      otherwise `Authorization: Bearer <token>`. */
  function Authorize(accessToken: Option<string>): (r: Outgoing)
    ensures r.Refused? <==> accessToken.None? || accessToken.value == ""
    ensures r.Sent? ==>
      && r.authorization == AuthGate.BearerPrefix + accessToken.value
      && |r.authorization| > |AuthGate.BearerPrefix|
      && r.authorization[|AuthGate.BearerPrefix|..] == accessToken.value
  {
    if accessToken.None? || accessToken.value == "" then Refused
    else Sent(AuthGate.BearerPrefix + accessToken.value)
  }

  /** The header a thunk sends is one the server's gate reads the same token
      back from. */
  lemma SentTokenReachesGate(token: string)
    requires token != "" && ' ' !in token
    ensures Authorize(Some(token)).Sent?
    ensures var h := Authorize(Some(token)).authorization;
      StartsWith(h, AuthGate.BearerPrefix) && AuthGate.BearerToken(h) == token
  {
    AuthGate.BearerTokenOf(token);
  }

  /** The server's answer to a sent request: the payload the thunk returns,
      or the `message` of an error response, if any. */
  datatype Response = Answered(fulfilled: Action) | Failed(message: Option<string>)

  predicate Answers(t: Thunk, a: Action) {
    match t
    case FetchAllNotes => a.AllFetched?
    case CreateNote => a.Created?
    case UpdateNoteStatus => a.StatusUpdated?
  }

  function Fallback(t: Thunk): string {
    match t
    case FetchAllNotes => "Failed to fetch notes."
    case CreateNote => "Failed to create note."
    case UpdateNoteStatus => "Failed to update note status."
  }

  /** `error.response?.data?.message || fallback`. */
  function RejectionMessage(t: Thunk, message: Option<string>): (m: string)
    ensures m != ""
    ensures message.Some? && message.value != "" ==> m == message.value
    ensures message.None? || message.value == "" ==> m == Fallback(t)
  {
    if message.Some? && message.value != "" then message.value else Fallback(t)
  }

  /** The action a thunk settles with, given the token in the store and the
      server's response (consulted only when a request is sent). */
  function Settle(t: Thunk, accessToken: Option<string>, response: Response): (a: Action)
    requires response.Answered? ==> Answers(t, response.fulfilled)
    ensures a.Rejected? ==> a.thunk == t && a.payload.Some? && a.payload.value != ""
    ensures !a.Rejected? ==> Answers(t, a)
  {
    if Authorize(accessToken).Refused? then Rejected(t, Some(NoAccessToken))
    else match response
      case Answered(a) => a
      case Failed(m) => Rejected(t, Some(RejectionMessage(t, m)))
  }

  /** A thunk dispatched from state `s`: its pending case, then its settled
      one. */
  function Dispatch(s: State, t: Thunk, accessToken: Option<string>, response: Response): State
    requires response.Answered? ==> Answers(t, response.fulfilled)
  {
    Reduce(Reduce(s, Pending(t)), Settle(t, accessToken, response))
  }

  /** Without a token nothing is sent, the notes stay as they were whatever
      the server would have said, and the error says why. */
  lemma NoTokenNoRequest(s: State, t: Thunk, response: Response, response': Response)
    requires response.Answered? ==> Answers(t, response.fulfilled)
    requires response'.Answered? ==> Answers(t, response'.fulfilled)
    ensures Dispatch(s, t, None, response) == Dispatch(s, t, None, response')
    ensures Dispatch(s, t, None, response) == s.(isLoading := false, error := Some(NoAccessToken))
  {
  }

  /** A status update replaces the note in place: length and order stay, only
      the first note with that id changes, and nothing changes when no note
      has it. */
  lemma StatusUpdateInPlace(s: State, token: string, u: ClientNote)
    requires token != ""
    ensures var r := Dispatch(s, UpdateNoteStatus, Some(token), Answered(StatusUpdated(u)));
      && r.notes == ReplaceFirst(s.notes, u)
      && |r.notes| == |s.notes|
      && r.error.None? && !r.isLoading
  {
  }

  /** A created note is put first, one longer; a fetch replaces the list. */
  lemma CreateAndFetch(s: State, token: string, n: ClientNote, ns: seq<ClientNote>)
    requires token != ""
    ensures Dispatch(s, CreateNote, Some(token), Answered(Created(n))).notes == [n] + s.notes
    ensures Dispatch(s, FetchAllNotes, Some(token), Answered(AllFetched(ns))).notes == ns
  {
  }
}
