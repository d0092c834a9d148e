/** The "start a new chat" dialog of `user-list-dialog.tsx`: picking
    users, naming a group, and creating the conversation.

    `handleCreateConversation` awaits up to four remote steps.  Their
    outcomes are parameters: for a group, whether `generateUploadUrl`
    returned a URL, what the image POST came back with, and whether
    `createConversation` succeeded. */
module UserListDialog {
  import opened Wrappers
  import opened Strings
  import Users

  type UserId = Users.Id

  datatype File = File(name: string, mimeType: string)

  datatype State = State(
    selectedUsers: seq<UserId>,
    groupName: string,
    isLoading: bool,
    selectedImage: Option<File>)

  const Initial := State([], "", false, None)

  /** Every id at most once. */
  predicate NoDuplicates(s: seq<UserId>) {
    forall i, j :: 0 <= i < j < |s| ==> s[i] != s[j]
  }

  /** `selectedUsers.filter((id) => id !== x)`. */
  function Remove(s: seq<UserId>, x: UserId): (r: seq<UserId>)
    ensures x !in r
    ensures forall y :: y in r <==> y in s && y != x
    ensures |r| <= |s|
    decreases |s|
  {
    if |s| == 0 then []
    else if s[|s| - 1] == x then Remove(s[..|s| - 1], x)
    else Remove(s[..|s| - 1], x) + [s[|s| - 1]]
  }

  /** Removing from one element: the element, unless it is the one removed. */
  lemma RemoveSingle(y: UserId, x: UserId)
    ensures Remove([y], x) == if y == x then [] else [y]
  {
    assert [y][..0] == [];
  }

  /** The filter works element by element: removing from a concatenation
      removes from each part and keeps the parts in order. */
  lemma {:induction false} RemoveConcat(a: seq<UserId>, b: seq<UserId>, x: UserId)
    ensures Remove(a + b, x) == Remove(a, x) + Remove(b, x)
    decreases |b|
  {
    if |b| == 0 {
      assert a + b == a;
    } else {
      var init, last := b[..|b| - 1], b[|b| - 1];
      var ab := a + b;
      assert ab[..|ab| - 1] == a + init;
      assert ab[|ab| - 1] == last;
      RemoveConcat(a, init, x);
      if last != x {
        assert Remove(a, x) + Remove(init, x) + [last] == Remove(a, x) + (Remove(init, x) + [last]);
      }
    }
  }

  /** Removing an id the list does not hold changes nothing. */
  lemma {:induction false} RemoveAbsent(s: seq<UserId>, x: UserId)
    requires x !in s
    ensures Remove(s, x) == s
    decreases |s|
  {
    if |s| > 0 {
      assert x !in s[..|s| - 1];
      RemoveAbsent(s[..|s| - 1], x);
      assert s[..|s| - 1] + [s[|s| - 1]] == s;
    }
  }

  /** Removing keeps the order of the rest, so it keeps them distinct. */
  lemma {:induction false} RemoveKeepsDistinct(s: seq<UserId>, x: UserId)
    requires NoDuplicates(s)
    ensures NoDuplicates(Remove(s, x))
    decreases |s|
  {
    if |s| > 0 {
      var init := s[..|s| - 1];
      assert NoDuplicates(init) by {
        forall i, j | 0 <= i < j < |init| ensures init[i] != init[j] {
          assert init[i] == s[i] && init[j] == s[j];
        }
      }
      RemoveKeepsDistinct(init, x);
      var last := s[|s| - 1];
      assert last !in init by {
        forall i | 0 <= i < |init| ensures init[i] != last {
          assert init[i] == s[i];
        }
      }
      AppendDistinct(Remove(init, x), last);
    }
  }

  lemma AppendDistinct(s: seq<UserId>, x: UserId)
    requires NoDuplicates(s) && x !in s
    ensures NoDuplicates(s + [x])
  {
    var t := s + [x];
    forall i, j | 0 <= i < j < |t| ensures t[i] != t[j] {
      if j < |s| {
        assert t[i] == s[i] && t[j] == s[j];
      } else {
        assert t[i] == s[i];
      }
    }
  }

  /** Clicking a user in the list: a selected user is dropped, any other
      is added at the end. */
  function Toggle(selected: seq<UserId>, id: UserId): (r: seq<UserId>)
    ensures id in r <==> id !in selected
    ensures forall y :: y != id ==> (y in r <==> y in selected)
    ensures id !in selected ==> r == selected + [id]
  {
    if id in selected then Remove(selected, id) else selected + [id]
  }

  /** A selection built by clicks never holds an id twice. */
  lemma ToggleKeepsDistinct(selected: seq<UserId>, id: UserId)
    requires NoDuplicates(selected)
    ensures NoDuplicates(Toggle(selected, id))
  {
    if id in selected {
      RemoveKeepsDistinct(selected, id);
    } else {
      AppendDistinct(selected, id);
    }
  }

  /** Clicking the same user twice restores the selection: exactly when
      the user was not selected, and up to order otherwise (the user
      moves to the end). */
  lemma ToggleTwice(selected: seq<UserId>, id: UserId)
    ensures id !in selected ==> Toggle(Toggle(selected, id), id) == selected
    ensures forall y :: y in Toggle(Toggle(selected, id), id) <==> y in selected
  {
    if id !in selected {
      var once := selected + [id];
      assert Remove(once, id) == Remove(selected, id);
      RemoveAbsent(selected, id);
    }
  }

  /** The argument of `createConversation`. */
  datatype Payload =
    | Direct(participants: seq<UserId>)
    | Group(participants: seq<UserId>, admin: UserId, groupName: string, groupImage: Option<string>)

  /** The group image POST: the chosen file as the body, sent with its
      type, or "image/jpeg" when there is no file or its type is empty. */
  datatype ImagePost = ImagePost(contentType: string, body: Option<File>)

  function PostFor(image: Option<File>): (p: ImagePost)
    ensures p.body == image
    ensures image.Some? && image.value.mimeType != "" ==> p.contentType == image.value.mimeType
    ensures image.None? || image.value.mimeType == "" ==> p.contentType == "image/jpeg"
  {
    if image.Some? && image.value.mimeType != "" then ImagePost(image.value.mimeType, image)
    else ImagePost("image/jpeg", image)
  }

  /** The outcome of the image POST and of reading its JSON reply.  The
      status is not checked, so any reply that parses yields its
      `storageId` field, `None` when it has none; `Threw` when the fetch
      or the parse threw. */
  datatype UploadReply = Threw | Replied(storageId: Option<string>)

  /** What a click on Create sends: whether it asks for an upload URL,
      the image POST, and the `createConversation` call. */
  datatype Effects = Effects(askUploadUrl: bool, post: Option<ImagePost>, create: Option<Payload>)

  const NoEffects := Effects(false, None, None)

  /** `handleCreateConversation`: nothing without a selection or without
      the caller's own row.  One selected user makes a direct chat with
      the caller; several make a group the caller administers, after
      uploading the group image: each step runs only when the one before
      it returned, and a POST reply that parses always reaches
      `createConversation`, with the storage id it names or none.  On success the selection, group name and image are
      cleared; on a throw they are kept; loading ends either way. */
  function HandleCreateConversation(s: State, me: Option<UserId>, uploadUrl: bool, reply: UploadReply, created: bool)
    : (r: (Effects, State))
    ensures |s.selectedUsers| == 0 || me.None? ==> r == (NoEffects, s)
    ensures |s.selectedUsers| == 1 && me.Some? ==>
      r.0 == Effects(false, None, Some(Direct(s.selectedUsers + [me.value])))
    ensures |s.selectedUsers| > 1 && me.Some? ==>
      && r.0.askUploadUrl
      && (r.0.post.Some? <==> uploadUrl)
      && (r.0.post.Some? ==> r.0.post.value == PostFor(s.selectedImage))
      && (r.0.create.Some? <==> uploadUrl && reply.Replied?)
      && (r.0.create.Some? ==>
          r.0.create.value == Group(s.selectedUsers + [me.value], me.value, s.groupName, reply.storageId))
    ensures |s.selectedUsers| > 0 && me.Some? ==>
      && !r.1.isLoading
      && (if r.0.create.Some? && created
          then r.1 == State([], "", false, None)
          else r.1 == s.(isLoading := false))
  {
    if |s.selectedUsers| == 0 || me.None? then (NoEffects, s)
    else
      var participants := s.selectedUsers + [me.value];
      var effects :=
        if |s.selectedUsers| == 1 then Effects(false, None, Some(Direct(participants)))
        else if !uploadUrl then Effects(true, None, None)
        else if reply.Threw? then Effects(true, Some(PostFor(s.selectedImage)), None)
        else Effects(true, Some(PostFor(s.selectedImage)), Some(Group(participants, me.value, s.groupName, reply.storageId)));
      var succeeded := effects.create.Some? && created;
      if succeeded then (effects, State([], "", false, None))
      else (effects, s.(isLoading := false))
  }

  /** An upload whose reply names no storage id (an error status with a
      JSON body, say) still creates the group, without an image, and a
      successful creation clears the form. */
  lemma ReplyWithoutIdStillCreates(s: State, me: UserId, created: bool)
    requires |s.selectedUsers| > 1
    ensures var r := HandleCreateConversation(s, Some(me), true, Replied(None), created);
      && r.0.create == Some(Group(s.selectedUsers + [me], me, s.groupName, None))
      && (created ==> r.1 == Initial)
  {
  }

  /** The caller is the last participant of every conversation created,
      after the selected users in the order they were picked. */
  lemma CallerJoinsLast(s: State, me: UserId, uploadUrl: bool, reply: UploadReply, created: bool)
    requires HandleCreateConversation(s, Some(me), uploadUrl, reply, created).0.create.Some?
    ensures var p := HandleCreateConversation(s, Some(me), uploadUrl, reply, created).0.create.value;
      && p.participants == s.selectedUsers + [me]
      && (p.Group? <==> |s.selectedUsers| > 1)
      && (p.Group? ==> p.admin == me)
  {
  }

  /** `disabled` of the Create button. */
  predicate CreateDisabled(s: State) {
    |s.selectedUsers| == 0 || (|s.selectedUsers| > 1 && s.groupName == "") || s.isLoading
  }

  /** An enabled Create button with the caller known always issues a
      request, and a group it creates always has a name. */
  lemma EnabledCreateSends(s: State, me: UserId, uploadUrl: bool, reply: UploadReply, created: bool)
    requires !CreateDisabled(s)
    ensures var r := HandleCreateConversation(s, Some(me), uploadUrl, reply, created);
      && (r.0.create.Some? || r.0.askUploadUrl)
      && (r.0.create.Some? && r.0.create.value.Group? ==> r.0.create.value.groupName != "")
  {
  }

  /** After a successful creation the dialog is back in its initial state,
      and Create is disabled until users are picked again. */
  lemma CreatedResets(s: State, me: UserId, reply: UploadReply)
    requires |s.selectedUsers| == 1 || (|s.selectedUsers| > 1 && reply.Replied?)
    ensures var r := HandleCreateConversation(s, Some(me), true, reply, true);
      r.1 == Initial && CreateDisabled(r.1)
  {
  }

  /** The name shown for a user: `user.name || user.email?.split("@")[0]`,
      the name unless it is empty, else the email up to its first '@'. */
  function ShownName(u: Users.User): (n: string)
    ensures u.name != "" ==> n == u.name
    ensures u.name == "" ==> '@' !in n && |n| <= |u.email| && u.email[..|n|] == n
    ensures u.name == "" && |n| < |u.email| ==> u.email[|n|] == '@'
  {
    if u.name != "" then u.name
    else
      var local := Split(u.email, '@')[0];
      SplitHead(u.email, '@');
      local
  }

  /** The first piece of a split is the text up to the first separator. */
  lemma SplitHead(s: string, c: char)
    ensures var h := Split(s, c)[0];
      c !in h && |h| <= |s| && s[..|h|] == h && (|h| < |s| ==> s[|h|] == c)
  {
    if c in s {
      var i := IndexOf(s, c);
      assert Split(s, c)[0] == s[..i];
    }
  }

  /** For an address `local@domain` whose local part has no '@', the
      local part is shown. */
  lemma ShownNameOfEmail(u: Users.User, local: string, domain: string)
    requires u.name == "" && '@' !in local && u.email == local + "@" + domain
    ensures ShownName(u) == local
  {
    var n := ShownName(u);
    assert u.email[|local|] == '@';
    assert forall k :: 0 <= k < |local| ==> u.email[k] == local[k];
    assert |n| == |local|;
  }
}
