/** The review screen's state container: a reducer over a snapshot history
    with a cursor, and the provider that dispatches to it and runs the save
    sequence around the two API calls.

    The reducer never looks inside a post, so it is generic in the post type
    `P`; the provider instantiates it with the browser's post objects. */
module VerificationContext {
  import opened Wrappers
  import opened Choices
  import opened ApiTypes
  import JsArrays

  datatype State<P> = State(post: Option<P>, history: seq<P>, currentIndex: int, isSaving: bool, error: Option<string>)

  datatype Action<P> =
    | SetPost(payload: P)
    | UpdatePost(payload: P)
    | Undo
    | Redo
    | StartSaving
    | EndSaving
    | SetError(message: string)

  function Initial<P>(): State<P> {
    State(None, [], -1, false, None)
  }

  /** `history[i]` in JavaScript: undefined outside the array. */
  function At<P>(history: seq<P>, i: int): Option<P> {
    if 0 <= i < |history| then Some(history[i]) else None
  }

  function Reduce<P>(s: State<P>, a: Action<P>): State<P> {
    match a
    case SetPost(p) =>
      s.(post := Some(p), history := [p], currentIndex := 0, error := None)
    case UpdatePost(p) =>
      var newHistory := JsArrays.Slice(s.history, 0, s.currentIndex + 1) + [p];
      s.(post := Some(p), history := newHistory, currentIndex := |newHistory| - 1, error := None)
    case Undo =>
      if s.currentIndex <= 0 then s
      else s.(post := At(s.history, s.currentIndex - 1), currentIndex := s.currentIndex - 1)
    case Redo =>
      if s.currentIndex >= |s.history| - 1 then s
      else s.(post := At(s.history, s.currentIndex + 1), currentIndex := s.currentIndex + 1)
    case StartSaving =>
      s.(isSaving := true, error := None)
    case EndSaving =>
      s.(isSaving := false)
    case SetError(m) =>
      s.(error := Some(m), isSaving := false)
  }

  /** The actions in order, each applied to the state the previous one left. */
  function Apply<P>(s: State<P>, actions: seq<Action<P>>): State<P>
    decreases |actions|
  {
    if actions == [] then s else Apply(Reduce(s, actions[0]), actions[1..])
  }

  /** A post is loaded: the cursor names a snapshot and the post is that snapshot. */
  ghost predicate Loaded<P>(s: State<P>) {
    0 <= s.currentIndex < |s.history| && s.post == Some(s.history[s.currentIndex])
  }

  /** Nothing loaded yet: the shape of the initial state. */
  ghost predicate Empty<P>(s: State<P>) {
    s.post == None && s.history == [] && s.currentIndex == -1
  }

  predicate Loads<P>(a: Action<P>) {
    a.SetPost? || a.UpdatePost?
  }

  predicate Saving<P>(a: Action<P>) {
    a.StartSaving? || a.EndSaving? || a.SetError?
  }

  lemma InitialState<P>()
    ensures Empty(Initial<P>()) && !Initial<P>().isSaving && Initial<P>().error == None
    ensures Reduce(Initial<P>(), Undo) == Initial<P>()
    ensures Reduce(Initial<P>(), Redo) == Initial<P>()
  {
  }

  lemma SetPostLoads<P>(s: State<P>, p: P)
    ensures var r := Reduce(s, SetPost(p));
      r.history == [p] && r.currentIndex == 0 && r.post == Some(p) && r.error == None
      && r.isSaving == s.isSaving && Loaded(r)
  {
  }

  /** An edit keeps the snapshots up to the cursor, drops any redo tail and
      appends the new post, which becomes current. */
  lemma UpdatePostTruncates<P>(s: State<P>, p: P)
    requires Loaded(s) || Empty(s)
    ensures var r := Reduce(s, UpdatePost(p));
      r.history == s.history[..s.currentIndex + 1] + [p]
      && r.currentIndex == |r.history| - 1 == s.currentIndex + 1
      && r.post == Some(p) && r.error == None && r.isSaving == s.isSaving
      && Loaded(r)
  {
    JsArrays.SliceNonNegative(s.history, 0, s.currentIndex + 1);
  }

  /** Undo is an exact no-op at or before the first snapshot; otherwise it
      moves the cursor back by one and shows that snapshot. */
  lemma UndoMoves<P>(s: State<P>)
    requires Loaded(s)
    ensures s.currentIndex == 0 ==> Reduce(s, Undo) == s
    ensures s.currentIndex > 0 ==>
      var r := Reduce(s, Undo);
      r.currentIndex == s.currentIndex - 1 && r.post == Some(s.history[r.currentIndex])
      && r.history == s.history && r.isSaving == s.isSaving && r.error == s.error
  {
  }

  /** Redo is an exact no-op at the last snapshot; otherwise it moves the
      cursor forward by one and shows that snapshot. */
  lemma RedoMoves<P>(s: State<P>)
    requires Loaded(s)
    ensures s.currentIndex == |s.history| - 1 ==> Reduce(s, Redo) == s
    ensures s.currentIndex < |s.history| - 1 ==>
      var r := Reduce(s, Redo);
      r.currentIndex == s.currentIndex + 1 && r.post == Some(s.history[r.currentIndex])
      && r.history == s.history && r.isSaving == s.isSaving && r.error == s.error
  {
  }

  /** The saving actions never touch the post, the history or the cursor;
      SET_ERROR always clears the saving flag and stores its message. */
  lemma SavingLeavesHistory<P>(s: State<P>, a: Action<P>)
    requires Saving(a)
    ensures var r := Reduce(s, a);
      r.post == s.post && r.history == s.history && r.currentIndex == s.currentIndex
    ensures a.SetError? ==> Reduce(s, a).error == Some(a.message) && !Reduce(s, a).isSaving
    ensures a.StartSaving? ==> Reduce(s, a).isSaving && Reduce(s, a).error == None
    ensures a.EndSaving? ==> !Reduce(s, a).isSaving && Reduce(s, a).error == s.error
  {
  }

  /** Every action keeps a loaded state loaded, keeps an empty state empty
      unless it loads a post, and the two loading actions always load. */
  lemma ReduceKeepsShape<P>(s: State<P>, a: Action<P>)
    requires Loaded(s) || Empty(s)
    ensures Loaded(s) ==> Loaded(Reduce(s, a))
    ensures Loads(a) ==> Loaded(Reduce(s, a))
    ensures Empty(s) && !Loads(a) ==> Empty(Reduce(s, a))
  {
    if a.UpdatePost? {
      UpdatePostTruncates(s, a.payload);
    }
  }

  /** From the initial state (or any loaded one), after any sequence of
      actions that loads a post at some point, the cursor is inside the
      history and the post is the snapshot it names. */
  lemma {:induction false} ApplyKeepsShape<P>(s: State<P>, actions: seq<Action<P>>)
    requires Loaded(s) || Empty(s)
    ensures Loaded(Apply(s, actions)) || Empty(Apply(s, actions))
    ensures (Loaded(s) || exists i :: 0 <= i < |actions| && Loads(actions[i])) ==> Loaded(Apply(s, actions))
    decreases |actions|
  {
    if actions != [] {
      var t := Reduce(s, actions[0]);
      ReduceKeepsShape(s, actions[0]);
      ApplyKeepsShape(t, actions[1..]);
      if exists i :: 0 <= i < |actions| && Loads(actions[i]) {
        var i :| 0 <= i < |actions| && Loads(actions[i]);
        if i > 0 {
          assert Loads(actions[1..][i - 1]);
        }
      }
    }
  }

  /** Undo followed by redo restores the state exactly, whenever undo moved. */
  lemma UndoThenRedo<P>(s: State<P>)
    requires Loaded(s) && s.currentIndex > 0
    ensures Reduce(Reduce(s, Undo), Redo) == s
  {
  }

  /** Redo followed by undo restores the state exactly, whenever redo moved. */
  lemma RedoThenUndo<P>(s: State<P>)
    requires Loaded(s) && s.currentIndex < |s.history| - 1
    ensures Reduce(Reduce(s, Redo), Undo) == s
  {
  }

  /** Undoing an edit shows again exactly the post that was current before it,
      with the same snapshots up to the cursor; redo brings the edit back. */
  lemma UndoRevertsUpdate<P>(s: State<P>, p: P)
    requires Loaded(s)
    ensures var u := Reduce(Reduce(s, UpdatePost(p)), Undo);
      u.post == s.post && u.currentIndex == s.currentIndex
      && u.history[..s.currentIndex + 1] == s.history[..s.currentIndex + 1]
      && Reduce(u, Redo).post == Some(p)
  {
    UpdatePostTruncates(s, p);
  }

  /** The history walk-through: load P0, edit to P1, undo, edit to P2. The
      undone P1 is gone, and redo at the end changes nothing. */
  lemma EditAfterUndoDropsRedo<P>(p0: P, p1: P, p2: P)
    ensures var s := Apply(Initial<P>(), [SetPost(p0), UpdatePost(p1), Undo, UpdatePost(p2)]);
      s == State(Some(p2), [p0, p2], 1, false, None)
      && Reduce(s, Redo) == s
  {
    var acts := [SetPost(p0), UpdatePost(p1), Undo, UpdatePost(p2)];
    var s1 := Reduce(Initial<P>(), SetPost(p0));
    UpdatePostTruncates(s1, p1);
    var s2 := Reduce(s1, UpdatePost(p1));
    var s3 := Reduce(s2, Undo);
    UpdatePostTruncates(s3, p2);
    var s4 := Reduce(s3, UpdatePost(p2));
    assert acts[1..] == [UpdatePost(p1), Undo, UpdatePost(p2)];
    assert acts[1..][1..] == [Undo, UpdatePost(p2)];
    assert acts[1..][1..][1..] == [UpdatePost(p2)];
    assert Apply(Initial<P>(), acts) == Apply(s1, acts[1..]);
    assert Apply(s1, acts[1..]) == Apply(s2, acts[1..][1..]);
    assert Apply(s2, acts[1..][1..]) == Apply(s3, acts[1..][1..][1..]);
    assert Apply(s3, [UpdatePost(p2)]) == s4;
    assert s4 == State(Some(p2), [p0, p2], 1, false, None);
  }

  /** What a rejected call threw: an Error instance with its message, or any
      other value (the API client throws a plain object, not an Error). */
  datatype Thrown = ErrorInstance(message: string) | OtherValue

  /** The message saveChanges records for what was thrown. */
  function SaveErrorMessage(t: Thrown): (m: string)
    ensures t.ErrorInstance? ==> m == t.message
    ensures t.OtherValue? ==> m == "Failed to save changes"
  {
    match t
    case ErrorInstance(message) => message
    case OtherValue => "Failed to save changes"
  }

  /** A request the provider hands to the API client. */
  datatype ApiCall = UpdatePostCall(id: Option<int>, body: PostValue) | ReviewPostCall(id: Option<int>)

  /** The context provider: the reducer's state, and the operations the review
      screen calls. Every awaited API call is a parameter that says how it
      settles. */
  class VerificationProvider {
    var state: State<PostDTO>

    constructor ()
      ensures state == Initial()
    {
      state := Initial();
    }

    method Dispatch(a: Action<PostDTO>)
      modifies this
      ensures state == Reduce(old(state), a)
    {
      state := Reduce(state, a);
    }

    method SetPostOf(p: PostDTO)
      modifies this
      ensures state == Reduce(old(state), SetPost(p))
    {
      Dispatch(SetPost(p));
    }

    method UpdatePostOf(p: PostDTO)
      modifies this
      ensures state == Reduce(old(state), UpdatePost(p))
    {
      Dispatch(UpdatePost(p));
    }

    method UndoOnce()
      modifies this
      ensures state == Reduce(old(state), Undo)
    {
      Dispatch(Undo);
    }

    method RedoOnce()
      modifies this
      ensures state == Reduce(old(state), Redo)
    {
      Dispatch(Redo);
    }

    /** START_SAVING, the update call, the review call only for an unreviewed
        post and only once the update resolved, then END_SAVING; on any
        rejection SET_ERROR with the error's message and the same rejection
        returned to the caller. The post, the history and the cursor are
        never changed. There is no guard against a save already in flight. */
    method SaveChanges(post: PostDTO, updateResult: Outcome<Thrown>, reviewResult: Outcome<Thrown>)
      returns (result: Outcome<Thrown>, calls: seq<ApiCall>)
      modifies this
      ensures calls == [UpdatePostCall(post.id, Value(post))]
        + (if updateResult.Pass? && post.status == Unreviewed then [ReviewPostCall(post.id)] else [])
      ensures result == if updateResult.Fail? then updateResult
                        else if post.status == Unreviewed then reviewResult
                        else Pass
      ensures state == old(state).(isSaving := false,
                                   error := if result.Pass? then None else Some(SaveErrorMessage(result.error)))
    {
      Dispatch(StartSaving);
      calls := [UpdatePostCall(post.id, Value(post))];
      result := updateResult;
      if result.Pass? && post.status == Unreviewed {
        calls := calls + [ReviewPostCall(post.id)];
        result := reviewResult;
      }
      if result.Pass? {
        Dispatch(EndSaving);
      } else {
        Dispatch(SetError(SaveErrorMessage(result.error)));
      }
    }
  }
}
