/**
 * The chat list in the sidebar (`ChatSidebar.tsx`): chats saved on the server, merged with chats the
 * client has just created and shown optimistically before the server knows them.
 */
module ChatSidebar {
  import opened Wrappers
  import opened Strings
  import opened Lists

  /** A chat as the sidebar holds it. Dates are instants as numbers; `isLoading` absent is `false`. */
  datatype Chat = Chat(id: string, title: string, createdAt: int, updatedAt: int, isLoading: bool)

  function ChatId(c: Chat): string
  {
    c.id
  }

  /** Shown optimistically and not yet confirmed by the server. */
  function IsPending(c: Chat): bool
  {
    c.isLoading
  }

  /** The filter test `chat => chat.id !== id`. */
  function Other(id: string): Chat -> bool
  {
    (c: Chat) => c.id != id
  }

  /** Some chat on the list has this id. */
  predicate HasChatId(chats: seq<Chat>, id: string)
  {
    exists j :: 0 <= j < |chats| && chats[j].id == id
  }

  /**
   * The optimistic insert: when both the new chat's id and title are set (and non-empty), the new chat,
   * marked pending, goes first and every other chat with its id is dropped; otherwise the list is unchanged.
   */
  function WithOptimistic(prev: seq<Chat>, newChatId: Option<string>, newChatTitle: Option<string>, now: int): (chats: seq<Chat>)
    ensures !(Truthy(newChatId) && Truthy(newChatTitle)) ==> chats == prev
    ensures Truthy(newChatId) && Truthy(newChatTitle) ==>
              |chats| >= 1 && chats[0] == Chat(newChatId.value, newChatTitle.value, now, now, true)
    ensures Truthy(newChatId) && Truthy(newChatTitle) ==>
              (forall i :: 1 <= i < |chats| ==> chats[i].id != newChatId.value)
              && (forall c :: c in chats[1..] <==> c in prev && c.id != newChatId.value)
              && IsSubsequence(chats[1..], prev)
    ensures Truthy(newChatId) && Truthy(newChatTitle) ==> chats[1..] == Deleted(prev, newChatId.value)
  {
    if Truthy(newChatId) && Truthy(newChatTitle) then
      var rest := Filter(prev, Other(newChatId.value));
      var chats := [Chat(newChatId.value, newChatTitle.value, now, now, true)] + rest;
      assert chats[1..] == rest;
      assert forall i :: 1 <= i < |chats| ==> chats[i] in rest;
      chats
    else prev
  }

  /** The optimistic insert keeps the ids on the list distinct. */
  lemma OptimisticKeepsIdsDistinct(prev: seq<Chat>, newChatId: Option<string>, newChatTitle: Option<string>, now: int)
    requires DistinctBy(prev, ChatId)
    ensures DistinctBy(WithOptimistic(prev, newChatId, newChatTitle, now), ChatId)
  {
    if Truthy(newChatId) && Truthy(newChatTitle) {
      var chats := WithOptimistic(prev, newChatId, newChatTitle, now);
      var rest := Filter(prev, Other(newChatId.value));
      assert chats[1..] == rest;
      SubsequenceDistinct(rest, prev);
      forall i, j | 0 <= i < j < |chats| ensures chats[i].id != chats[j].id {
        if 0 < i {
          assert chats[i] == rest[i - 1] && chats[j] == rest[j - 1];
        }
      }
    }
  }

  /** A subsequence of a list with distinct ids has distinct ids. */
  lemma {:induction false} SubsequenceDistinct(a: seq<Chat>, b: seq<Chat>)
    requires IsSubsequence(a, b) && DistinctBy(b, ChatId)
    ensures DistinctBy(a, ChatId)
    decreases |b|
  {
    if a != [] {
      if a[0] == b[0] && IsSubsequence(a[1..], b[1..]) {
        SubsequenceDistinct(a[1..], b[1..]);
        SubsequenceMembers(a[1..], b[1..]);
        forall j | 0 < j < |a| ensures a[0].id != a[j].id {
          assert a[j] in a[1..];
          var k :| 0 <= k < |b[1..]| && b[1..][k] == a[j];
          assert b[k + 1] == a[j];
        }
        forall i, j | 0 < i < j < |a| ensures a[i].id != a[j].id {
          assert a[i] == a[1..][i - 1] && a[j] == a[1..][j - 1];
        }
      } else {
        SubsequenceDistinct(a, b[1..]);
      }
    }
  }

  /** Every element of a subsequence is an element of the list. */
  lemma {:induction false} SubsequenceMembers(a: seq<Chat>, b: seq<Chat>)
    requires IsSubsequence(a, b)
    ensures forall x :: x in a ==> x in b
    decreases |b|
  {
    if a != [] {
      if a[0] == b[0] && IsSubsequence(a[1..], b[1..]) {
        SubsequenceMembers(a[1..], b[1..]);
        assert forall x :: x in a ==> x == a[0] || x in a[1..];
      } else {
        SubsequenceMembers(a, b[1..]);
      }
    }
  }

  /** Running the optimistic insert twice, as a re-run effect does, gives the same list as running it once. */
  lemma OptimisticIdempotent(prev: seq<Chat>, newChatId: Option<string>, newChatTitle: Option<string>, now: int)
    ensures WithOptimistic(WithOptimistic(prev, newChatId, newChatTitle, now), newChatId, newChatTitle, now)
         == WithOptimistic(prev, newChatId, newChatTitle, now)
  {
    if Truthy(newChatId) && Truthy(newChatTitle) {
      var p := Other(newChatId.value);
      var added := Chat(newChatId.value, newChatTitle.value, now, now, true);
      var rest := Filter(prev, p);
      FilterAppend([added], rest, p);
      assert Filter([added], p) == [];
      FilterIdempotent(prev, p);
    }
  }

  /** `chats.filter(chat => chat.id !== chatId)`: the list without that chat, otherwise in the same order. */
  function Deleted(chats: seq<Chat>, chatId: string): (rest: seq<Chat>)
    ensures forall c {:trigger multiset(rest)[c]} :: multiset(rest)[c] == if c.id != chatId then multiset(chats)[c] else 0
    ensures forall c :: c in rest <==> c in chats && c.id != chatId
    ensures IsSubsequence(rest, chats)
    ensures |rest| <= |chats|
  {
    FilterLength(chats, Other(chatId));
    Filter(chats, Other(chatId))
  }

  /** Deleting a chat right after inserting it optimistically leaves what deleting it would have left anyway. */
  lemma DeleteUndoesInsert(prev: seq<Chat>, newChatId: Option<string>, newChatTitle: Option<string>, now: int)
    requires Truthy(newChatId) && Truthy(newChatTitle)
    ensures Deleted(WithOptimistic(prev, newChatId, newChatTitle, now), newChatId.value) == Deleted(prev, newChatId.value)
  {
    var p := Other(newChatId.value);
    var added := Chat(newChatId.value, newChatTitle.value, now, now, true);
    FilterAppend([added], Filter(prev, p), p);
    assert Filter([added], p) == [];
    FilterIdempotent(prev, p);
  }

  /** `data.chats.map(chat => ({ ...chat, isLoading: false }))`: each server chat, confirmed. */
  function MarkLoaded(server: seq<Chat>): (chats: seq<Chat>)
    ensures |chats| == |server|
    ensures forall i :: 0 <= i < |chats| ==> chats[i].id == server[i].id && !chats[i].isLoading
    ensures forall i :: 0 <= i < |chats| ==> chats[i] == server[i].(isLoading := false)
  {
    seq(|server|, i requires 0 <= i < |server| => server[i].(isLoading := false))
  }

  /** Confirming a chat does not move its id. */
  lemma FindIndexMarkLoaded(server: seq<Chat>, k: string)
    ensures FindIndex(MarkLoaded(server), ChatId, k) == FindIndex(server, ChatId, k)
  {
    var a := FindIndex(MarkLoaded(server), ChatId, k);
    var b := FindIndex(server, ChatId, k);
    if 0 <= a {
      assert 0 <= b <= a;
    }
    if 0 <= b {
      assert 0 <= a <= b;
    }
  }

  /**
   * The merge after loading: server chats (confirmed) followed by the chats still pending on the client,
   * keeping the first chat of each id.
   */
  function Merge(prev: seq<Chat>, server: seq<Chat>): (chats: seq<Chat>)
    ensures DistinctBy(chats, ChatId)
  {
    UniqueBy(MarkLoaded(server) + Filter(prev, IsPending), ChatId)
  }

  /** Every chat the server listed is in the merged list. */
  lemma MergeHasServerChats(prev: seq<Chat>, server: seq<Chat>)
    ensures forall j :: 0 <= j < |server| ==> HasChatId(Merge(prev, server), server[j].id)
  {
    var all := MarkLoaded(server) + Filter(prev, IsPending);
    forall j | 0 <= j < |server| ensures HasChatId(Merge(prev, server), server[j].id) {
      assert ChatId(all[j]) == server[j].id;
    }
  }

  /** Every chat pending before the load is still in the merged list, possibly as the server's version. */
  lemma MergeKeepsPending(prev: seq<Chat>, server: seq<Chat>)
    ensures forall c :: c in prev && c.isLoading ==> HasChatId(Merge(prev, server), c.id)
  {
    var loaded := MarkLoaded(server);
    var pending := Filter(prev, IsPending);
    var all := loaded + pending;
    forall c | c in prev && c.isLoading ensures HasChatId(Merge(prev, server), c.id) {
      assert c in pending;
      var k :| 0 <= k < |pending| && pending[k] == c;
      assert all[|loaded| + k] == c;
    }
  }

  /** Nothing else survives: a merged chat is a confirmed server chat or a chat that was pending. */
  lemma MergeSource(prev: seq<Chat>, server: seq<Chat>, i: int)
    requires 0 <= i < |Merge(prev, server)|
    ensures Merge(prev, server)[i] in MarkLoaded(server) || (Merge(prev, server)[i] in prev && Merge(prev, server)[i].isLoading)
  {
    var loaded := MarkLoaded(server);
    var pending := Filter(prev, IsPending);
    var all := loaded + pending;
    var c := Merge(prev, server)[i];
    var f := FindIndex(all, ChatId, c.id);
    assert all[f] == c;
    if f < |loaded| {
      assert c == loaded[f];
    } else {
      assert c == pending[f - |loaded|];
      assert c in pending;
    }
  }

  /** On an id the server knows, the server wins: the merged chat is the server's first chat with that id, confirmed. */
  lemma MergeServerWins(prev: seq<Chat>, server: seq<Chat>, i: int)
    requires 0 <= i < |Merge(prev, server)| && HasChatId(server, Merge(prev, server)[i].id)
    ensures Merge(prev, server)[i] == server[FindIndex(server, ChatId, Merge(prev, server)[i].id)].(isLoading := false)
  {
    var loaded := MarkLoaded(server);
    var all := loaded + Filter(prev, IsPending);
    var chats := Merge(prev, server);
    var k := chats[i].id;
    var j :| 0 <= j < |server| && server[j].id == k;
    FindIndexMarkLoaded(server, k);
    assert loaded[j].id == k;
    FindIndexAppendFront(loaded, Filter(prev, IsPending), ChatId, k);
    var f := FindIndex(server, ChatId, k);
    assert all[f] == loaded[f];
  }

  /** Server chats come first: a chat the server knows is never listed after one only the client knows. */
  lemma MergeServerFirst(prev: seq<Chat>, server: seq<Chat>, i: int, j: int)
    requires 0 <= i < j < |Merge(prev, server)|
    requires HasChatId(server, Merge(prev, server)[j].id)
    ensures HasChatId(server, Merge(prev, server)[i].id)
  {
    var loaded := MarkLoaded(server);
    var pending := Filter(prev, IsPending);
    var all := loaded + pending;
    var chats := Merge(prev, server);
    var kj := chats[j].id;
    var ki := chats[i].id;
    var w :| 0 <= w < |server| && server[w].id == kj;
    FindIndexMarkLoaded(server, kj);
    FindIndexMarkLoaded(server, ki);
    assert loaded[w].id == kj;
    FindIndexAppendFront(loaded, pending, ChatId, kj);
    assert FindIndex(all, ChatId, ki) < FindIndex(all, ChatId, kj) < |loaded|;
    if FindIndex(loaded, ChatId, ki) == -1 {
      FindIndexAppendBack(loaded, pending, ChatId, ki);
      assert false;
    }
    var f := FindIndex(server, ChatId, ki);
    assert server[f].id == ki;
  }

  /** `title.length > 30 ? title.substring(0, 30) + '...' : title`. */
  function TruncateTitle(title: string): (shown: string)
    ensures |title| <= 30 ==> shown == title
    ensures |title| > 30 ==> |shown| == 33 && StartsWith(shown, title[..30]) && EndsWith(shown, "...")
  {
    if |title| > 30 then
      var shown := Take(title, 30) + "...";
      AppendParts(Take(title, 30), "...");
      shown
    else title
  }

  /** A shown title is never longer than 33 characters, and truncating it again changes nothing. */
  lemma TruncateTitleIdempotent(title: string)
    ensures |TruncateTitle(title)| <= 33
    ensures TruncateTitle(TruncateTitle(title)) == TruncateTitle(title)
  {
    var shown := TruncateTitle(title);
    if |title| > 30 {
      assert shown[..30] == title[..30];
      assert shown == shown[..30] + "...";
    }
  }

  /** `truncateTitle(chat.title || 'Uden titel')`: an empty title shows as "Uden titel". */
  function DisplayTitle(title: string): (shown: string)
    ensures shown != [] && |shown| <= 33
    ensures title == [] ==> shown == "Uden titel"
    ensures title != [] && |title| <= 30 ==> shown == title
    ensures title != [] ==> shown == TruncateTitle(title)
  {
    TruncateTitleIdempotent(if title == [] then "Uden titel" else title);
    TruncateTitle(if title == [] then "Uden titel" else title)
  }

  /** The sidebar's state: the listed chats and whether the first load is still under way. */
  class SidebarState {
    var chats: seq<Chat>
    var isLoading: bool

    /** No id is listed twice; every update below keeps it so. */
    ghost predicate Valid()
      reads this
    {
      DistinctBy(chats, ChatId)
    }

    /** The list starts empty and loading. */
    constructor ()
      ensures Valid()
      ensures chats == [] && isLoading
    {
      chats := [];
      isLoading := true;
    }

    /** The effect on `newChatId` and `newChatTitle`: the optimistic insert, taken at time `now`. */
    method AddOptimistic(newChatId: Option<string>, newChatTitle: Option<string>, now: int)
      requires Valid()
      modifies this
      ensures Valid()
      ensures chats == WithOptimistic(old(chats), newChatId, newChatTitle, now)
      ensures isLoading == old(isLoading)
    {
      OptimisticKeepsIdsDistinct(chats, newChatId, newChatTitle, now);
      if Truthy(newChatId) && Truthy(newChatTitle) {
        var added := Chat(newChatId.value, newChatTitle.value, now, now, true);
        chats := [added] + Filter(chats, Other(newChatId.value));
      }
    }

    /**
     * `loadChats`: `response` is the server's chat list when the request succeeded, `None` when it failed
     * or answered with an error status. Only a success changes the list; either way loading ends.
     */
    method LoadChats(response: Option<seq<Chat>>)
      requires Valid()
      modifies this
      ensures Valid()
      ensures chats == if response.Some? then Merge(old(chats), response.value) else old(chats)
      ensures !isLoading
    {
      if response.Some? {
        chats := Merge(chats, response.value);
      }
      isLoading := false;
    }

    /** `deleteChat`: the chat leaves the list only when the server confirmed the delete (`ok`). */
    method DeleteChat(chatId: string, ok: bool)
      requires Valid()
      modifies this
      ensures Valid()
      ensures chats == if ok then Deleted(old(chats), chatId) else old(chats)
      ensures isLoading == old(isLoading)
    {
      SubsequenceDistinct(Deleted(chats, chatId), chats);
      if ok {
        chats := Filter(chats, Other(chatId));
      }
    }
  }
}
