/** The comment section of the dish detail screen (app/detail.tsx): the
    comment tree and its four in-place updates, the paginated loading with a
    cached first page, the dropdown menu toggle and the request headers.
    Network requests become inputs (the page a request returned, or `None`
    when it failed); the signed-in user's id, decoded from the token by the
    screen, is a parameter. */
module Comments {
  import opened Wrappers
  import opened Text
  import SimpleCache
  import Http

  /** A comment as the screen keeps it.  The optional `replies` array is the
      pair (`replies`, `repliesDefined`): an absent array is recorded as
      `repliesDefined == false` with no replies. */
  datatype Comment = Comment(
    id: string,
    content: string,
    updatedAt: string,
    likes: int,
    isLiked: bool,
    canEdit: Option<bool>,
    replies: seq<Comment>,
    repliesDefined: bool)

  /** `c.replies || []`. */
  function RepliesOrEmpty(c: Comment): seq<Comment> {
    if c.repliesDefined then c.replies else []
  }

  /** Every id anywhere in a forest. */
  function AllIds(list: seq<Comment>): set<string>
    decreases list
  {
    if list == [] then {}
    else {list[0].id} + AllIds(list[0].replies) + AllIds(list[1..])
  }

  /** The ids of the top-level comments, in order. */
  function TopIds(list: seq<Comment>): (ids: seq<string>)
    ensures |ids| == |list| && forall i :: 0 <= i < |list| ==> ids[i] == list[i].id
  {
    seq(|list|, i requires 0 <= i < |list| => list[i].id)
  }

  // ---------------------------------------------------------------------------
  // Tree updates

  /** The traversal shared by the like update, the edit update and `addReply`:
      a comment with the target id is replaced by `f` of it and not looked
      into further; any other comment with a non-empty reply array has the
      traversal applied to its replies. */
  function UpdateMatching(list: seq<Comment>, target: string, f: Comment -> Comment): (r: seq<Comment>)
    ensures |r| == |list|
    ensures forall i :: 0 <= i < |list| && list[i].id == target ==> r[i] == f(list[i])
    ensures forall i :: 0 <= i < |list| && list[i].id != target ==>
              r[i].(replies := list[i].replies) == list[i]
    ensures forall i :: 0 <= i < |list| && list[i].id != target && list[i].repliesDefined ==>
              r[i].replies == UpdateMatching(list[i].replies, target, f)
    decreases list
  {
    if list == [] then []
    else
      var c := list[0];
      var c' := if c.id == target then f(c)
                else if c.repliesDefined && |c.replies| > 0 then c.(replies := UpdateMatching(c.replies, target, f))
                else c;
      [c'] + UpdateMatching(list[1..], target, f)
  }

  /** The like update: the server's like count and liked flag for the target. */
  function Like(list: seq<Comment>, target: string, count: int, liked: bool): seq<Comment> {
    UpdateMatching(list, target, (c: Comment) => c.(likes := count, isLiked := liked))
  }

  /** The edit update: the server's content and edit time for the target. */
  function Edit(list: seq<Comment>, target: string, content: string, updatedAt: string): seq<Comment> {
    UpdateMatching(list, target, (c: Comment) => c.(content := content, updatedAt := updatedAt))
  }

  /** `addReply`: the new reply, with an empty reply array of its own, goes at
      the end of the parent's replies. */
  function AddReply(list: seq<Comment>, parentId: string, reply: Comment): seq<Comment> {
    var newReply := reply.(replies := [], repliesDefined := true);
    UpdateMatching(list, parentId, (c: Comment) => c.(replies := RepliesOrEmpty(c) + [newReply], repliesDefined := true))
  }

  /** A path into a forest: an index among the top-level comments, then an
      index among that comment's replies, and so on. */
  type Path = seq<nat>

  /** The path leads to a comment with the target id through comments that
      have reply arrays and other ids: the first match the traversal meets. */
  predicate ReachesFirst(list: seq<Comment>, path: Path, target: string)
    decreases |path|
  {
    path != [] && path[0] < |list| &&
    (if |path| == 1 then list[path[0]].id == target
     else list[path[0]].id != target && list[path[0]].repliesDefined
          && ReachesFirst(list[path[0]].replies, path[1..], target))
  }

  /** The comment at the end of a path. */
  function At(list: seq<Comment>, path: Path, target: string): Comment
    requires ReachesFirst(list, path, target)
    decreases |path|
  {
    if |path| == 1 then list[path[0]] else At(list[path[0]].replies, path[1..], target)
  }

  /** The traversal reaches a matching comment at any depth: when `f` keeps
      ids, the path still leads there afterwards, and the comment found is
      `f` of the old one. */
  lemma {:induction false} UpdateMatchingAt(list: seq<Comment>, path: Path, target: string, f: Comment -> Comment)
    requires ReachesFirst(list, path, target)
    requires forall c :: f(c).id == c.id
    ensures ReachesFirst(UpdateMatching(list, target, f), path, target)
    ensures At(UpdateMatching(list, target, f), path, target) == f(At(list, path, target))
    decreases |path|
  {
    if |path| > 1 {
      var i := path[0];
      UpdateMatchingAt(list[i].replies, path[1..], target, f);
    }
  }

  /** A traversal whose target occurs nowhere changes nothing. */
  lemma {:induction false} UpdateMatchingAbsent(list: seq<Comment>, target: string, f: Comment -> Comment)
    requires target !in AllIds(list)
    ensures UpdateMatching(list, target, f) == list
    decreases list
  {
    if list != [] {
      var c := list[0];
      UpdateMatchingAbsent(c.replies, target, f);
      UpdateMatchingAbsent(list[1..], target, f);
      assert c.(replies := c.replies) == c;
      assert [c] + list[1..] == list;
    }
  }

  /** The shape of a forest: ids and nesting, nothing else. */
  datatype Node = Node(id: string, kids: seq<Node>)

  function Shape(list: seq<Comment>): (s: seq<Node>)
    ensures |s| == |list|
    decreases list
  {
    if list == [] then [] else [Node(list[0].id, Shape(list[0].replies))] + Shape(list[1..])
  }

  /** A traversal whose replacement keeps ids and replies keeps the shape. */
  lemma {:induction false} UpdateMatchingKeepsShape(list: seq<Comment>, target: string, f: Comment -> Comment)
    requires forall c :: f(c).id == c.id && f(c).replies == c.replies
    ensures Shape(UpdateMatching(list, target, f)) == Shape(list)
    decreases list
  {
    if list != [] {
      var c := list[0];
      UpdateMatchingKeepsShape(c.replies, target, f);
      UpdateMatchingKeepsShape(list[1..], target, f);
      var r := UpdateMatching(list, target, f);
      assert r[1..] == UpdateMatching(list[1..], target, f);
    }
  }

  /** A forest with every like count and liked flag cleared. */
  function WithoutLikes(list: seq<Comment>): (r: seq<Comment>)
    decreases list
  {
    if list == [] then []
    else [list[0].(likes := 0, isLiked := false, replies := WithoutLikes(list[0].replies))] + WithoutLikes(list[1..])
  }

  /** A forest with every content and edit time cleared. */
  function WithoutEdits(list: seq<Comment>): (r: seq<Comment>)
    decreases list
  {
    if list == [] then []
    else [list[0].(content := "", updatedAt := "", replies := WithoutEdits(list[0].replies))] + WithoutEdits(list[1..])
  }

  /** The like update keeps ids and nesting and changes nothing but like
      counts and liked flags. */
  lemma LikeChangesOnlyLikes(list: seq<Comment>, target: string, count: int, liked: bool)
    ensures Shape(Like(list, target, count, liked)) == Shape(list)
    ensures WithoutLikes(Like(list, target, count, liked)) == WithoutLikes(list)
  {
    UpdateMatchingKeepsShape(list, target, (c: Comment) => c.(likes := count, isLiked := liked));
    LikeErased(list, target, count, liked);
  }

  lemma {:induction false} LikeErased(list: seq<Comment>, target: string, count: int, liked: bool)
    ensures WithoutLikes(Like(list, target, count, liked)) == WithoutLikes(list)
    decreases list
  {
    if list != [] {
      var c := list[0];
      LikeErased(c.replies, target, count, liked);
      LikeErased(list[1..], target, count, liked);
      var r := Like(list, target, count, liked);
      assert r[1..] == Like(list[1..], target, count, liked);
    }
  }

  /** The edit update keeps ids and nesting and changes nothing but contents
      and edit times. */
  lemma EditChangesOnlyContent(list: seq<Comment>, target: string, content: string, updatedAt: string)
    ensures Shape(Edit(list, target, content, updatedAt)) == Shape(list)
    ensures WithoutEdits(Edit(list, target, content, updatedAt)) == WithoutEdits(list)
  {
    UpdateMatchingKeepsShape(list, target, (c: Comment) => c.(content := content, updatedAt := updatedAt));
    EditErased(list, target, content, updatedAt);
  }

  lemma {:induction false} EditErased(list: seq<Comment>, target: string, content: string, updatedAt: string)
    ensures WithoutEdits(Edit(list, target, content, updatedAt)) == WithoutEdits(list)
    decreases list
  {
    if list != [] {
      var c := list[0];
      EditErased(c.replies, target, content, updatedAt);
      EditErased(list[1..], target, content, updatedAt);
      var r := Edit(list, target, content, updatedAt);
      assert r[1..] == Edit(list[1..], target, content, updatedAt);
    }
  }

  /** A reply lands at the end of its parent's replies, at whatever depth
      the parent sits; nothing else of the parent changes. */
  lemma AddReplyPlacement(list: seq<Comment>, parentId: string, reply: Comment, path: Path)
    requires ReachesFirst(list, path, parentId)
    ensures var r := AddReply(list, parentId, reply);
            var old_ := At(list, path, parentId);
            ReachesFirst(r, path, parentId) &&
            var new_ := At(r, path, parentId);
            new_.repliesDefined && new_.replies == RepliesOrEmpty(old_) + [reply.(replies := [], repliesDefined := true)]
            && new_.(replies := old_.replies, repliesDefined := old_.repliesDefined) == old_
  {
    var newReply := reply.(replies := [], repliesDefined := true);
    UpdateMatchingAt(list, path, parentId,
                     (c: Comment) => c.(replies := RepliesOrEmpty(c) + [newReply], repliesDefined := true));
  }

  lemma AddReplyToMissingParent(list: seq<Comment>, parentId: string, reply: Comment)
    requires parentId !in AllIds(list)
    ensures AddReply(list, parentId, reply) == list
  {
    var newReply := reply.(replies := [], repliesDefined := true);
    UpdateMatchingAbsent(list, parentId, (c: Comment) => c.(replies := RepliesOrEmpty(c) + [newReply], repliesDefined := true));
  }

  /** Whether every comment of a forest has a defined reply array. */
  predicate RepliesAllDefined(list: seq<Comment>)
    decreases list
  {
    list == [] || (list[0].repliesDefined && RepliesAllDefined(list[0].replies) && RepliesAllDefined(list[1..]))
  }

  /** The top-level ids with every occurrence of `target` dropped. */
  function Without(ids: seq<string>, target: string): (r: seq<string>)
    ensures |r| <= |ids| && target !in r
  {
    if ids == [] then []
    else (if ids[0] == target then [] else [ids[0]]) + Without(ids[1..], target)
  }

  /** `removeTree`: comments with the target id disappear together with their
      replies; every comment that stays gets a defined reply array. */
  function RemoveTree(list: seq<Comment>, target: string): (r: seq<Comment>)
    ensures target !in AllIds(r)
    ensures AllIds(r) <= AllIds(list)
    ensures RepliesAllDefined(r)
    ensures TopIds(r) == Without(TopIds(list), target)
    decreases list
  {
    if list == [] then []
    else
      var c := list[0];
      var rest := RemoveTree(list[1..], target);
      assert TopIds(list) == [c.id] + TopIds(list[1..]);
      assert Without(TopIds(list), target) ==
             (if c.id == target then [] else [c.id]) + Without(TopIds(list[1..]), target);
      if c.id == target then rest
      else
        var kept := c.(replies := if c.repliesDefined then RemoveTree(c.replies, target) else [], repliesDefined := true);
        var r := [kept] + rest;
        assert r[1..] == rest;
        assert AllIds(r) == {c.id} + AllIds(kept.replies) + AllIds(rest);
        assert TopIds(r) == [c.id] + TopIds(rest);
        r
  }

  /** Removal works comment by comment: the result for a concatenation is
      the concatenation of the results, so the kept comments keep their order. */
  lemma {:induction false} RemoveTreeAppend(a: seq<Comment>, b: seq<Comment>, target: string)
    ensures RemoveTree(a + b, target) == RemoveTree(a, target) + RemoveTree(b, target)
    decreases a
  {
    if a == [] {
      assert a + b == b;
    } else {
      assert (a + b)[0] == a[0];
      assert (a + b)[1..] == a[1..] + b;
      RemoveTreeAppend(a[1..], b, target);
    }
  }

  /** A single comment is dropped when it has the target id; otherwise it
      keeps every field and its replies are pruned the same way. */
  lemma RemoveTreeSingle(c: Comment, target: string)
    ensures RemoveTree([c], target) ==
              if c.id == target then []
              else [c.(replies := RemoveTree(RepliesOrEmpty(c), target), repliesDefined := true)]
  {
    assert [c][1..] == [];
  }

  /** Every comment with a defined reply array, the missing ones defined as empty. */
  function DefineReplies(list: seq<Comment>): (r: seq<Comment>)
    decreases list
  {
    if list == [] then []
    else
      var c := list[0];
      [c.(replies := if c.repliesDefined then DefineReplies(c.replies) else [], repliesDefined := true)]
      + DefineReplies(list[1..])
  }

  /** Removing an id that is not in the tree changes nothing except that
      missing reply arrays become empty ones. */
  lemma RemoveAbsentKeepsTop(list: seq<Comment>, target: string)
    requires target !in AllIds(list)
    ensures RemoveTree(list, target) == DefineReplies(list)
    ensures RepliesAllDefined(list) ==> RemoveTree(list, target) == list
    ensures TopIds(RemoveTree(list, target)) == TopIds(list)
  {
    RemoveAbsentDefines(list, target);
    if RepliesAllDefined(list) {
      DefineRepliesOfDefined(list);
    }
    WithoutAbsent(TopIds(list), target);
  }

  lemma {:induction false} RemoveAbsentDefines(list: seq<Comment>, target: string)
    requires target !in AllIds(list)
    ensures RemoveTree(list, target) == DefineReplies(list)
    decreases list
  {
    if list != [] {
      var c := list[0];
      RemoveAbsentDefines(c.replies, target);
      RemoveAbsentDefines(list[1..], target);
    }
  }

  lemma {:induction false} DefineRepliesOfDefined(list: seq<Comment>)
    requires RepliesAllDefined(list)
    ensures DefineReplies(list) == list
    decreases list
  {
    if list != [] {
      var c := list[0];
      DefineRepliesOfDefined(c.replies);
      DefineRepliesOfDefined(list[1..]);
      assert c.(replies := c.replies, repliesDefined := true) == c;
      assert [c] + list[1..] == list;
    }
  }

  lemma {:induction false} WithoutAbsent(ids: seq<string>, target: string)
    requires target !in ids
    ensures Without(ids, target) == ids
  {
    if ids != [] {
      WithoutAbsent(ids[1..], target);
      assert [ids[0]] + ids[1..] == ids;
    }
  }

  lemma {:induction false} TopIdsInAllIds(list: seq<Comment>)
    ensures forall x :: x in TopIds(list) ==> x in AllIds(list)
    decreases list
  {
    if list != [] {
      TopIdsInAllIds(list[1..]);
      assert TopIds(list)[1..] == TopIds(list[1..]);
    }
  }

  // ---------------------------------------------------------------------------
  // The dropdown menu and request headers

  /** `handleMenuPress`: pressing the open menu closes it, any other opens it. */
  function MenuPress(active: Option<string>, commentId: string): (r: Option<string>)
    ensures r == Some(commentId) <==> active != Some(commentId)
    ensures r == None <==> active == Some(commentId)
  {
    if active == Some(commentId) then None else Some(commentId)
  }

  /** Pressing the same menu twice restores a closed or same-menu state. */
  lemma MenuPressTwice(active: Option<string>, commentId: string)
    requires active == None || active == Some(commentId)
    ensures MenuPress(MenuPress(active, commentId), commentId) == active
  {
  }

  /** The screen's own `getAuthHeaders`: JSON content type and the bearer token
      when usable, without the no-cache headers of the shared helper. */
  function DetailHeaders(token: Option<string>): (h: Http.Headers)
    ensures Http.ContentType in h && h[Http.ContentType] == "application/json"
    ensures Http.Authorization in h <==> Http.UsableToken(token)
    ensures Http.Authorization in h ==> h[Http.Authorization] == "Bearer " + token.value
  {
    var base := map[Http.ContentType := "application/json"];
    if Http.UsableToken(token) then base[Http.Authorization := "Bearer " + token.value] else base
  }

  /** The screen's headers are the shared helper's with the no-cache headers dropped. */
  lemma DetailHeadersAreSharedSubset(token: Option<string>)
    ensures DetailHeaders(token) == map k | k in Http.AuthHeaders(token) && k != Http.CacheControl && k != Http.Pragma
                                      :: Http.AuthHeaders(token)[k]
  {
  }

  // ---------------------------------------------------------------------------
  // Pagination and the cached first page

  const PageSize: nat := 10

  /** Lifetime of the cached first page: two minutes. */
  const FirstPageTtl: int := 2 * 60_000

  /** The comment list on screen, how many comments were loaded, and whether
      another page may exist. */
  datatype View = View(comments: seq<Comment>, skip: nat, hasMore: bool)

  type Cache = SimpleCache.Store<seq<Comment>>

  /** The prefix of every cached comment page of a dish. */
  function DishCommentsPrefix(dishId: string): string {
    "comments:" + dishId + ":"
  }

  /** The cache key of a dish's first page for one user: it lies under the
      dish's comment prefix, whoever the user is. */
  function FirstPageKey(dishId: string, userId: string): (k: string)
    ensures StartsWith(k, DishCommentsPrefix(dishId))
  {
    var prefix := DishCommentsPrefix(dishId);
    var k := prefix + "p0:" + userId;
    assert k[..|prefix|] == prefix;
    k
  }

  /** A cached page may be shown to a guest, or to a signed-in user when it
      carries edit permissions for at least one comment. */
  predicate CanUseCache(userId: string, cached: seq<Comment>) {
    userId == "guest" || exists i :: 0 <= i < |cached| && cached[i].canEdit.Some?
  }

  /** `fetchComments(reset)`.  A reset first tries the cached first page; when
      there is no usable one, or without reset, `page` is what the server
      returned (`None` when the request failed, which leaves the view as it was). */
  function Load(v: View, cache: Cache, key: string, userId: string, reset: bool,
                page: Option<seq<Comment>>, now: int): (r: (View, Cache))
    ensures var cached := SimpleCache.Get(cache, key, now);
            reset && cached.value.Some? && CanUseCache(userId, cached.value.value) ==>
              r == (View(cached.value.value, |cached.value.value|, |cached.value.value| == PageSize), cached.store)
    ensures !reset && page.Some? ==>
              r.0 == View(v.comments + page.value, v.skip + |page.value|, |page.value| == PageSize) && r.1 == cache
    ensures var cached := SimpleCache.Get(cache, key, now);
            !(reset && cached.value.Some? && CanUseCache(userId, cached.value.value)) && page.None? ==> r.0 == v
  {
    var cached := if reset then SimpleCache.Get(cache, key, now) else SimpleCache.Lookup(cache, None);
    if reset && cached.value.Some? && CanUseCache(userId, cached.value.value) then
      var c := cached.value.value;
      (View(c, |c|, |c| == PageSize), cached.store)
    else
      match page
      case None => (v, cached.store)
      case Some(items) =>
        var skip := if reset then 0 else v.skip;
        var comments := if reset then items else v.comments + items;
        var cache' := if reset then SimpleCache.Set(cached.store, key, items, now, FirstPageTtl) else cached.store;
        (View(comments, skip + |items|, |items| == PageSize), cache')
  }

  /** A reset that has to ask the server shows exactly the returned page and
      caches it as the first page. */
  lemma ResetLoadsFirstPage(v: View, cache: Cache, key: string, userId: string, items: seq<Comment>, now: int)
    requires var cached := SimpleCache.Get(cache, key, now);
             !(cached.value.Some? && CanUseCache(userId, cached.value.value))
    ensures var r := Load(v, cache, key, userId, true, Some(items), now);
            r.0 == View(items, |items|, |items| == PageSize) &&
            key in r.1 && r.1[key].value == items && r.1[key].ttl == FirstPageTtl
  {
  }

  /** The cache stays coherent with the screen: the cached first page, if any,
      is a prefix of the list on screen and at most one page long. */
  predicate Coherent(v: View, cache: Cache, key: string) {
    key in cache ==> |cache[key].value| <= PageSize && |cache[key].value| <= |v.comments|
                     && v.comments[..|cache[key].value|] == cache[key].value
  }

  /** The first `PageSize` comments of a list (`slice(0, PAGE_SIZE)`). */
  function FirstPage(list: seq<Comment>): (p: seq<Comment>)
    ensures |p| <= PageSize && |p| <= |list| && list[..|p|] == p
  {
    if |list| <= PageSize then list else list[..PageSize]
  }

  /** After a tree update, as written: the cache is refreshed only while at
      most one page has been loaded. */
  function RefreshAsWritten(v: View, cache: Cache, key: string, updated: seq<Comment>, now: int): Cache {
    if v.skip <= PageSize then SimpleCache.Set(cache, key, FirstPage(updated), now, FirstPageTtl) else cache
  }

  /** After a tree update, corrected: the cache is always refreshed from the
      updated list. */
  function Refresh(cache: Cache, key: string, updated: seq<Comment>, now: int): (c: Cache)
    ensures key in c && c[key].value == FirstPage(updated)
    ensures forall k :: k != key ==> (k in c <==> k in cache) && (k in c ==> c[k] == cache[k])
  {
    SimpleCache.Set(cache, key, FirstPage(updated), now, FirstPageTtl)
  }

  /** The operations of the comment section that touch the list.  `Refocus`
      is the focus effect with the comments open: it deletes the cached first
      page and then reloads with reset. */
  datatype Action =
    | LoadPage(reset: bool, page: Option<seq<Comment>>)
    | Refocus(freshPage: Option<seq<Comment>>)
    | LikeDone(likeTarget: string, count: int, liked: bool)
    | EditDone(editTarget: string, content: string, updatedAt: string)
    | ReplyDone(parentId: string, reply: Comment)
    | DeleteDone(deleteTarget: string)
  {
    predicate UpdatesTree() {
      LikeDone? || EditDone? || ReplyDone? || DeleteDone?
    }
  }

  /** The list on screen after a completed tree operation. */
  function UpdateList(list: seq<Comment>, a: Action): seq<Comment>
    requires a.UpdatesTree()
  {
    match a
    case LikeDone(t, n, b) => Like(list, t, n, b)
    case EditDone(t, content, at) => Edit(list, t, content, at)
    case ReplyDone(p, reply) => AddReply(list, p, reply)
    case DeleteDone(t) => RemoveTree(list, t)
  }

  /** One operation on the screen and the cache, with the corrected refresh:
      loading is `Load`; a like, an edit or a delete updates the tree and
      refreshes the cached first page from it; a reply updates the tree and
      drops the cached first page. */
  function Step(v: View, cache: Cache, key: string, userId: string, a: Action, now: int): (r: (View, Cache))
    ensures a.LoadPage? ==> r == Load(v, cache, key, userId, a.reset, a.page, now)
    ensures a.Refocus? ==> r == Load(v, SimpleCache.Del(cache, key), key, userId, true, a.freshPage, now)
    ensures a.LikeDone? ==> r.0.comments == Like(v.comments, a.likeTarget, a.count, a.liked)
    ensures a.EditDone? ==> r.0.comments == Edit(v.comments, a.editTarget, a.content, a.updatedAt)
    ensures a.ReplyDone? ==> r.0.comments == AddReply(v.comments, a.parentId, a.reply)
    ensures a.DeleteDone? ==> r.0.comments == RemoveTree(v.comments, a.deleteTarget)
    ensures a.UpdatesTree() ==> r.0.skip == v.skip && r.0.hasMore == v.hasMore
    ensures a.ReplyDone? ==> r.1 == SimpleCache.Del(cache, key)
    ensures a.LikeDone? || a.EditDone? || a.DeleteDone? ==>
              key in r.1 && r.1[key].value == FirstPage(r.0.comments) && r.1[key].ttl == FirstPageTtl
              && forall k :: k != key ==> (k in r.1 <==> k in cache) && (k in r.1 ==> r.1[k] == cache[k])
  {
    if a.LoadPage? then Load(v, cache, key, userId, a.reset, a.page, now)
    else if a.Refocus? then Load(v, SimpleCache.Del(cache, key), key, userId, true, a.freshPage, now)
    else
      var updated := UpdateList(v.comments, a);
      (v.(comments := updated),
       if a.ReplyDone? then SimpleCache.Del(cache, key) else Refresh(cache, key, updated, now))
  }

  /** One operation as the screen is written: the same as `Step`, except that
      after a like, an edit or a delete the cached first page is refreshed
      only while at most one page has been loaded. */
  function StepAsWritten(v: View, cache: Cache, key: string, userId: string, a: Action, now: int): (r: (View, Cache))
    ensures r.0 == Step(v, cache, key, userId, a, now).0
    ensures !a.UpdatesTree() || a.ReplyDone? ==> r == Step(v, cache, key, userId, a, now)
    ensures (a.LikeDone? || a.EditDone? || a.DeleteDone?) && v.skip > PageSize ==> r.1 == cache
  {
    if !a.UpdatesTree() || a.ReplyDone? then Step(v, cache, key, userId, a, now)
    else
      var updated := UpdateList(v.comments, a);
      (v.(comments := updated), RefreshAsWritten(v, cache, key, updated, now))
  }

  /** While at most one page is loaded, the screen as written and the
      corrected step agree. */
  lemma StepAsWrittenAgreesOnFirstPage(v: View, cache: Cache, key: string, userId: string, a: Action, now: int)
    requires v.skip <= PageSize
    ensures StepAsWritten(v, cache, key, userId, a, now) == Step(v, cache, key, userId, a, now)
  {
  }

  /** The server honours `limit`: a page never holds more than `PageSize` comments. */
  predicate PageWithinLimit(a: Action) {
    (a.LoadPage? && a.page.Some? ==> |a.page.value| <= PageSize)
    && (a.Refocus? && a.freshPage.Some? ==> |a.freshPage.value| <= PageSize)
  }

  /** Every operation keeps the cached first page coherent with the screen. */
  lemma StepKeepsCoherent(v: View, cache: Cache, key: string, userId: string, a: Action, now: int)
    requires Coherent(v, cache, key) && PageWithinLimit(a)
    ensures var r := Step(v, cache, key, userId, a, now);
            Coherent(r.0, r.1, key)
  {
    if a.LoadPage? {
      LoadKeepsCoherent(v, cache, key, userId, a.reset, a.page, now);
    } else if a.Refocus? {
      RefocusRestoresCoherence(v, cache, key, userId, a.freshPage, now);
    }
  }

  lemma LoadKeepsCoherent(v: View, cache: Cache, key: string, userId: string, reset: bool,
                          page: Option<seq<Comment>>, now: int)
    requires Coherent(v, cache, key)
    requires page.Some? ==> |page.value| <= PageSize
    ensures var r := Load(v, cache, key, userId, reset, page, now);
            Coherent(r.0, r.1, key)
  {
    var r := Load(v, cache, key, userId, reset, page, now);
    if !reset && page.Some? && key in cache {
      var c := cache[key].value;
      assert (v.comments + page.value)[..|c|] == v.comments[..|c|];
    }
  }

  /** With the refresh as written, a like after a second page was loaded leaves
      the old like count in the cached first page, so the cache no longer agrees
      with the list on screen.  The screen never reads that entry back: every
      reset first deletes it (`RefocusRestoresCoherence`, `RemountClearsFirstPage`). */
  lemma RefreshAsWrittenGoesStale(c0: Comment, others: seq<Comment>, key: string, userId: string, now: int)
    requires |others| == 2 * PageSize - 1 && c0.likes == 0
    ensures var list := [c0] + others;
            var v := View(list, 2 * PageSize, true);
            var cache := SimpleCache.Set(map[], key, FirstPage(list), now, FirstPageTtl);
            Coherent(v, cache, key) &&
            var updated := Like(list, c0.id, 1, true);
            !Coherent(v.(comments := updated), RefreshAsWritten(v, cache, key, updated, now), key)
    ensures var list := [c0] + others;
            var v := View(list, 2 * PageSize, true);
            var cache := SimpleCache.Set(map[], key, FirstPage(list), now, FirstPageTtl);
            var r := StepAsWritten(v, cache, key, userId, LikeDone(c0.id, 1, true), now);
            !Coherent(r.0, r.1, key)
  {
    var list := [c0] + others;
    var updated := Like(list, c0.id, 1, true);
    assert updated[0].likes == 1;
    assert FirstPage(list)[0].likes == 0;
  }

  /** The focus effect reloads from the server whatever the cache holds, even a
      first page that disagrees with the list: the cache ends coherent, and when
      the server answers, the screen shows exactly its page. */
  lemma RefocusRestoresCoherence(v: View, cache: Cache, key: string, userId: string,
                                 page: Option<seq<Comment>>, now: int)
    requires page.Some? ==> |page.value| <= PageSize
    ensures var r := Step(v, cache, key, userId, Refocus(page), now);
            Coherent(r.0, r.1, key)
            && (page.Some? ==> r.0 == View(page.value, |page.value|, |page.value| == PageSize))
            && (page.None? ==> r.0 == v && key !in r.1)
  {
    var dropped := SimpleCache.Del(cache, key);
    assert key !in dropped;
    LoadKeepsCoherent(v, dropped, key, userId, true, page, now);
  }

  /** The effect that runs on mount and whenever the token changes: every cached
      comment page of the dish is dropped and the list starts empty.  The same
      effect also drops the dish's cached rating entries, which live outside
      this comment cache. */
  function Remount(cache: Cache, dishId: string): (r: (View, Cache))
    ensures r.0 == View([], 0, true)
    ensures forall k :: k in r.1 <==> k in cache && !StartsWith(k, DishCommentsPrefix(dishId))
    ensures forall k :: k in r.1 ==> r.1[k] == cache[k]
  {
    (View([], 0, true), SimpleCache.ClearByPrefix(cache, DishCommentsPrefix(dishId)))
  }

  /** After a mount no user's first page of the dish is cached, so opening the
      comments shows the server's page and caches it afresh. */
  lemma RemountClearsFirstPage(cache: Cache, dishId: string, userId: string,
                               items: seq<Comment>, now: int)
    requires |items| <= PageSize
    ensures var m := Remount(cache, dishId);
            var key := FirstPageKey(dishId, userId);
            var r := Load(m.0, m.1, key, userId, true, Some(items), now);
            key !in m.1 && r.0 == View(items, |items|, |items| == PageSize) && Coherent(r.0, r.1, key)
  {
    var m := Remount(cache, dishId);
    var key := FirstPageKey(dishId, userId);
    assert key !in m.1;
    LoadKeepsCoherent(m.0, m.1, key, userId, true, Some(items), now);
  }
}
