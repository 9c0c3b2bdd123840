/** Chat sessions and their messages, and the owner-only session administration
    (create, rename, delete). The session table is a sequence in creation order;
    each session carries its messages in the order they were stored. */
module Chat {
  import opened Wrappers
  import opened Text
  import Table

  type UserId = nat

  datatype Role = User | Assistant

  /** The role tag stored with a message and sent to the model. */
  function RoleName(r: Role): string {
    match r
    case User => "user"
    case Assistant => "assistant"
  }

  datatype Message = Message(role: Role, content: string)

  datatype Session = Session(id: nat, owner: UserId, title: string, messages: seq<Message>)

  /** The title a session gets when it is created. */
  const NewChatTitle := "New Chat"

  /** Session ids are the table's primary key. */
  predicate UniqueIds(ss: seq<Session>) {
    forall i, j :: 0 <= i < j < |ss| ==> ss[i].id != ss[j].id
  }

  /** A session's primary key. */
  function SessionId(s: Session): nat {
    s.id
  }

  /** Position of the session with the given id. */
  function Find(ss: seq<Session>, id: int): Option<nat> {
    Table.Lookup(ss, SessionId, id)
  }

  datatype Created = Created(sessions: seq<Session>, id: nat)

  /** Starts an empty chat owned by the caller. The id is the next row id,
      one more than the largest in use. */
  function NewChat(ss: seq<Session>, caller: UserId): (r: Created)
    ensures forall i :: 0 <= i < |ss| ==> ss[i].id != r.id
    ensures r.sessions == ss + [Session(r.id, caller, NewChatTitle, [])]
    ensures UniqueIds(ss) ==> UniqueIds(r.sessions)
  {
    var id := Table.FreshId(ss, SessionId);
    Created(ss + [Session(id, caller, NewChatTitle, [])], id)
  }

  datatype AdminOutcome = Done | NotFound | Unauthorized

  datatype AdminResult = AdminResult(sessions: seq<Session>, outcome: AdminOutcome)

  /** Renames a chat. Only its owner may; an absent or empty title leaves it as it was. */
  function RenameChat(ss: seq<Session>, caller: UserId, id: nat, newTitle: Option<string>): (r: AdminResult)
    requires UniqueIds(ss)
    ensures r.outcome == NotFound <==> forall i :: 0 <= i < |ss| ==> ss[i].id != id
    ensures r.outcome == Unauthorized <==> exists i :: 0 <= i < |ss| && ss[i].id == id && ss[i].owner != caller
    ensures r.outcome != Done ==> r.sessions == ss
    ensures r.outcome == Done ==> |r.sessions| == |ss|
    ensures r.outcome == Done ==> forall i :: 0 <= i < |ss| ==>
      r.sessions[i] == if ss[i].id == id && Truthy(newTitle) then ss[i].(title := newTitle.value) else ss[i]
  {
    match Find(ss, id)
    case None => AdminResult(ss, NotFound)
    case Some(k) =>
      if ss[k].owner != caller then AdminResult(ss, Unauthorized)
      else if Truthy(newTitle) then AdminResult(ss[k := ss[k].(title := newTitle.value)], Done)
      else AdminResult(ss, Done)
  }

  /** Deletes a chat together with its messages. Only its owner may. */
  function DeleteChat(ss: seq<Session>, caller: UserId, id: nat): (r: AdminResult)
    requires UniqueIds(ss)
    ensures r.outcome == NotFound <==> forall i :: 0 <= i < |ss| ==> ss[i].id != id
    ensures r.outcome == Unauthorized <==> exists i :: 0 <= i < |ss| && ss[i].id == id && ss[i].owner != caller
    ensures r.outcome != Done ==> r.sessions == ss
    ensures r.outcome == Done ==> exists k :: 0 <= k < |ss| && ss[k].id == id && ss[k].owner == caller
                                        && r.sessions == ss[..k] + ss[k + 1..]
  {
    match Find(ss, id)
    case None => AdminResult(ss, NotFound)
    case Some(k) =>
      if ss[k].owner != caller then AdminResult(ss, Unauthorized)
      else AdminResult(ss[..k] + ss[k + 1..], Done)
  }

  /** Removing the entry at `k` shifts the later ones down by one. */
  lemma RemoveAtIndex(ss: seq<Session>, k: nat)
    requires k < |ss|
    ensures |ss[..k] + ss[k + 1..]| == |ss| - 1
    ensures forall i :: 0 <= i < |ss| - 1 ==> (ss[..k] + ss[k + 1..])[i] == if i < k then ss[i] else ss[i + 1]
  {
  }

  /** Removing one entry keeps the ids unique and drops the removed id. */
  lemma RemoveAtIds(ss: seq<Session>, k: nat)
    requires UniqueIds(ss) && k < |ss|
    ensures UniqueIds(ss[..k] + ss[k + 1..])
    ensures forall s :: s in ss[..k] + ss[k + 1..] ==> s.id != ss[k].id
  {
    var rest := ss[..k] + ss[k + 1..];
    RemoveAtIndex(ss, k);
    forall i, j | 0 <= i < j < |rest|
      ensures rest[i].id != rest[j].id
    {
      var i' := if i < k then i else i + 1;
      var j' := if j < k then j else j + 1;
      assert rest[i] == ss[i'] && rest[j] == ss[j'];
    }
    forall s | s in rest
      ensures s.id != ss[k].id
    {
      var i :| 0 <= i < |rest| && rest[i] == s;
      var i' := if i < k then i else i + 1;
      assert rest[i] == ss[i'];
    }
  }

  /** Removing the entry at `k` keeps every other entry. */
  lemma RemoveAtKeeps(ss: seq<Session>, k: nat, s: Session)
    requires k < |ss| && s in ss && s != ss[k]
    ensures s in ss[..k] + ss[k + 1..]
  {
    var j :| 0 <= j < |ss| && ss[j] == s;
    RemoveAtIndex(ss, k);
    if j < k { assert (ss[..k] + ss[k + 1..])[j] == s; } else { assert (ss[..k] + ss[k + 1..])[j - 1] == s; }
  }

  /** After a delete no session with that id is left, so none of its messages
      survive either; the table keeps its primary key. */
  lemma DeleteChatCascades(ss: seq<Session>, caller: UserId, id: nat)
    requires UniqueIds(ss)
    ensures var r := DeleteChat(ss, caller, id);
            && UniqueIds(r.sessions)
            && (r.outcome == Done ==> forall i :: 0 <= i < |r.sessions| ==> r.sessions[i].id != id)
            && (r.outcome == Done ==> forall s :: s in ss && s.id != id ==> s in r.sessions)
  {
    var r := DeleteChat(ss, caller, id);
    if r.outcome == Done {
      var k :| 0 <= k < |ss| && ss[k].id == id && r.sessions == ss[..k] + ss[k + 1..];
      RemoveAtIds(ss, k);
      assert forall i :: 0 <= i < |r.sessions| ==> r.sessions[i] in r.sessions;
      forall s | s in ss && s.id != id
        ensures s in r.sessions
      {
        RemoveAtKeeps(ss, k, s);
      }
    }
  }

  /** A caller who does not own a chat can neither rename nor delete it, and
      either attempt leaves every session as it was. */
  lemma OnlyOwnerMutates(ss: seq<Session>, caller: UserId, id: nat, newTitle: Option<string>)
    requires UniqueIds(ss)
    requires forall i :: 0 <= i < |ss| && ss[i].id == id ==> ss[i].owner != caller
    ensures RenameChat(ss, caller, id, newTitle).sessions == ss
    ensures DeleteChat(ss, caller, id).sessions == ss
    ensures RenameChat(ss, caller, id, newTitle).outcome != Done
    ensures DeleteChat(ss, caller, id).outcome != Done
  {
  }
}
