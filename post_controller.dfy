/**
 * The post handlers of the blog backend over an in-memory document store.
 *
 * The store is a map from post id to post record. Ids and creation stamps
 * come from two counters that only grow. The read handlers (one post, a page
 * of posts) are functions of the map; the handlers that create, update and
 * delete posts are methods of the store. Those three take the id of the
 * authenticated requester as a parameter, since the router puts them behind
 * the authentication middleware.
 */
module PostController {
  import opened Http

  type PostId = nat

  /** A stored post. Title, content and author are required by the schema;
      `createdAt` is the creation timestamp that `timestamps: true` adds. */
  datatype Post = Post(title: string, content: string, author: UserId, createdAt: nat)

  /** A post as a reply carries it: its id beside its fields. */
  datatype PostView = PostView(id: PostId, post: Post)

  /** The `title` and `content` of a request body; `None` is `undefined`. */
  datatype PostBody = PostBody(title: Option<string>, content: Option<string>)

  const MissingFields := "Please provide title and content"
  const PostNotFound := "Post not found"
  const NotAuthorUpdate := "Not authorized to update this post"
  const NotAuthorDelete := "Not authorized to delete this post"

  // ---------------------------------------------------------------------
  // Reading one post
  // ---------------------------------------------------------------------

  /** `getPost`: a public read, so there is no requester and no ownership
      check; an unknown id is a 404. */
  function GetPost(posts: map<PostId, Post>, id: PostId): (r: Reply<PostView>)
    ensures r.Success? <==> id in posts
    ensures r.Success? ==> r.status == 200 && r.data.id == id && r.data.post == posts[id]
    ensures r.Failure? ==> r == Failure(404, PostNotFound)
  {
    if id in posts then Success(200, PostView(id, posts[id])) else Failure(404, PostNotFound)
  }

  // ---------------------------------------------------------------------
  // Partial update
  // ---------------------------------------------------------------------

  /** The record an update by the author leaves behind: a field present in the
      body replaces the stored one (even when it is the empty string), an absent
      field leaves it alone, and author and creation stamp never change. */
  function ApplyPatch(p: Post, body: PostBody): (q: Post)
    ensures q.author == p.author && q.createdAt == p.createdAt
    ensures body.title.None? ==> q.title == p.title
    ensures body.title.Some? ==> q.title == body.title.value
    ensures body.content.None? ==> q.content == p.content
    ensures body.content.Some? ==> q.content == body.content.value
  {
    var t := if body.title.Some? then body.title.value else p.title;
    var c := if body.content.Some? then body.content.value else p.content;
    Post(t, c, p.author, p.createdAt)
  }

  // ---------------------------------------------------------------------
  // Pagination arithmetic of getPosts
  // ---------------------------------------------------------------------

  /** The `page` and `limit` query parameters after parsing; `None` is a
      parameter that was not sent. */
  datatype Query = Query(page: Option<nat>, limit: Option<nat>)

  datatype PageRef = PageRef(page: nat, limit: nat)
  datatype Pagination = Pagination(next: Option<PageRef>, prev: Option<PageRef>)

  /** The body of a `getPosts` reply. */
  datatype PostList = PostList(count: nat, total: nat, page: nat, pages: nat,
                               pagination: Pagination, data: seq<PostView>)

  /** The requested page; page 1 when the parameter was not sent. */
  function PageOf(q: Query): (page: nat)
    ensures q.page.None? ==> page == 1
    ensures q.page.Some? ==> page == q.page.value
  {
    if q.page.Some? then q.page.value else 1
  }

  /** The page size; 10 when the parameter was not sent. */
  function LimitOf(q: Query): (limit: nat)
    ensures q.limit.None? ==> limit == 10
    ensures q.limit.Some? ==> limit == q.limit.value
  {
    if q.limit.Some? then q.limit.value else 10
  }

  function Min(a: int, b: int): (m: int)
  {
    if a <= b then a else b
  }

  /** `Math.ceil(total / limit)`: the least multiple count of `limit` that
      covers `total`. */
  function CeilDiv(total: nat, limit: nat): (c: nat)
    requires limit >= 1
    ensures (c - 1) * limit < total <= c * limit
  {
    var q := (total + limit - 1) / limit;
    var rem := (total + limit - 1) % limit;
    assert q * limit + rem == total + limit - 1;
    assert (q - 1) * limit == q * limit - limit;
    q
  }

  /** `Math.ceil(total / limit) || 1`: the number of pages, where an empty
      store still has one (empty) page. */
  function Pages(total: nat, limit: nat): (pages: nat)
    requires limit >= 1
    ensures pages >= 1
    ensures total == 0 ==> pages == 1
    ensures total > 0 ==> (pages - 1) * limit < total <= pages * limit
  {
    var c := CeilDiv(total, limit);
    if c == 0 then 1 else c
  }

  /** `(page - 1) * limit`: how many posts precede the requested page; with
      the page's own `limit` posts they make `page` full pages, and none
      precede page 1. */
  function Skip(page: nat, limit: nat): (skip: nat)
    requires page >= 1
    ensures skip + limit == page * limit
    ensures page == 1 ==> skip == 0
  {
    (page - 1) * limit
  }

  lemma MulMonotone(a: int, b: int, k: nat)
    requires a <= b
    ensures a * k <= b * k
  {
    assert b * k - a * k == (b - a) * k;
  }

  /** The page is not the last one exactly when the posts before it and on
      it (`skip + limit`) fall short of the total. */
  lemma {:induction false} NotLastPage(page: nat, limit: nat, total: nat)
    requires page >= 1 && limit >= 1
    ensures Skip(page, limit) + limit < total <==> page < Pages(total, limit)
  {
    var pages := Pages(total, limit);
    assert Skip(page, limit) + limit == page * limit;
    if page < pages {
      MulMonotone(page, pages - 1, limit);
    } else {
      MulMonotone(pages, page, limit);
    }
  }

  /** The page is not the first one exactly when posts are skipped before it. */
  lemma {:induction false} NotFirstPage(page: nat, limit: nat)
    requires page >= 1 && limit >= 1
    ensures Skip(page, limit) > 0 <==> page > 1
  {
    if page > 1 {
      MulMonotone(1, page - 1, limit);
    }
  }

  /** The `next` descriptor: present exactly when the page is not the last one
      (`skip + limit < total`), and then it points at the following page. */
  function NextRef(page: nat, limit: nat, total: nat): (next: Option<PageRef>)
    requires page >= 1 && limit >= 1
    ensures next.Some? <==> page < Pages(total, limit)
    ensures next.Some? ==> next.value == PageRef(page + 1, limit)
  {
    NotLastPage(page, limit, total);
    if Skip(page, limit) + limit < total then Some(PageRef(page + 1, limit)) else None
  }

  /** The `prev` descriptor: present exactly when the page is not the first one
      (`skip > 0`), and then it points at the preceding page. */
  function PrevRef(page: nat, limit: nat): (prev: Option<PageRef>)
    requires page >= 1 && limit >= 1
    ensures prev.Some? <==> page > 1
    ensures prev.Some? ==> prev.value == PageRef(page - 1, limit)
  {
    NotFirstPage(page, limit);
    if Skip(page, limit) > 0 then Some(PageRef(page - 1, limit)) else None
  }

  /** Worked example: 25 posts, 10 per page. */
  lemma PaginationOfTwentyFive()
    ensures Pages(25, 10) == 3
    ensures NextRef(1, 10, 25) == Some(PageRef(2, 10)) && PrevRef(1, 10) == None
    ensures NextRef(3, 10, 25) == None && PrevRef(3, 10) == Some(PageRef(2, 10))
  {
  }

  // ---------------------------------------------------------------------
  // Newest-first order of the store
  // ---------------------------------------------------------------------

  /** `k` is a post no other post was created after. */
  ghost predicate IsLatest(m: map<PostId, Post>, k: PostId)
  {
    k in m && forall j :: j in m ==> m[j].createdAt <= m[k].createdAt
  }

  lemma {:induction false} LatestExists(m: map<PostId, Post>)
    requires m != map[]
    ensures exists k :: IsLatest(m, k)
    decreases |m|
  {
    assert m.Keys != {};
    var a :| a in m;
    var rest := m - {a};
    assert rest.Keys == m.Keys - {a};
    if rest == map[] {
      assert IsLatest(m, a) by {
        forall j | j in m ensures m[j].createdAt <= m[a].createdAt {
          assert j !in rest;
        }
      }
    } else {
      LatestExists(rest);
      var b :| IsLatest(rest, b);
      var k := if m[a].createdAt <= m[b].createdAt then b else a;
      assert IsLatest(m, k) by {
        forall j | j in m ensures m[j].createdAt <= m[k].createdAt {
          if j != a {
            assert j in rest;
          }
        }
      }
    }
  }

  /** `s` lists the posts of `m`, each exactly once, with nothing else. */
  ghost predicate ListsExactly(m: map<PostId, Post>, s: seq<PostView>)
  {
    && |s| == |m|
    && (forall i :: 0 <= i < |s| ==> s[i].id in m && m[s[i].id] == s[i].post)
    && (forall id :: id in m ==> PostView(id, m[id]) in s)
    && (forall i, j :: 0 <= i < j < |s| ==> s[i].id != s[j].id)
  }

  /** `s` is in non-increasing order of creation stamp. */
  ghost predicate NewestFirst(s: seq<PostView>)
  {
    forall i, j :: 0 <= i < j < |s| ==> s[i].post.createdAt >= s[j].post.createdAt
  }

  /** Putting a latest post in front of a newest-first listing of the others
      gives a newest-first listing of all of them. */
  lemma PrependLatest(m: map<PostId, Post>, k: PostId, t: seq<PostView>)
    requires IsLatest(m, k)
    requires ListsExactly(m - {k}, t) && NewestFirst(t)
    ensures ListsExactly(m, [PostView(k, m[k])] + t) && NewestFirst([PostView(k, m[k])] + t)
  {
    assert (m - {k}).Keys == m.Keys - {k};
    PrependEntries(m, k, t);
    PrependCovers(m, k, t);
    PrependDistinct(m, k, t);
    PrependSorted(m, k, t);
  }

  lemma PrependEntries(m: map<PostId, Post>, k: PostId, t: seq<PostView>)
    requires k in m
    requires forall i :: 0 <= i < |t| ==> t[i].id in m - {k} && (m - {k})[t[i].id] == t[i].post
    ensures var s := [PostView(k, m[k])] + t;
            forall i :: 0 <= i < |s| ==> s[i].id in m && m[s[i].id] == s[i].post
  {
  }

  lemma PrependCovers(m: map<PostId, Post>, k: PostId, t: seq<PostView>)
    requires k in m
    requires forall id :: id in m - {k} ==> PostView(id, (m - {k})[id]) in t
    ensures forall id :: id in m ==> PostView(id, m[id]) in [PostView(k, m[k])] + t
  {
    forall id | id in m ensures PostView(id, m[id]) in [PostView(k, m[k])] + t {
      if id != k {
        assert id in m - {k};
      }
    }
  }

  lemma PrependDistinct(m: map<PostId, Post>, k: PostId, t: seq<PostView>)
    requires k in m
    requires forall i :: 0 <= i < |t| ==> t[i].id in m - {k}
    requires forall i, j :: 0 <= i < j < |t| ==> t[i].id != t[j].id
    ensures var s := [PostView(k, m[k])] + t;
            forall i, j :: 0 <= i < j < |s| ==> s[i].id != s[j].id
  {
  }

  lemma PrependSorted(m: map<PostId, Post>, k: PostId, t: seq<PostView>)
    requires IsLatest(m, k)
    requires forall i :: 0 <= i < |t| ==> t[i].id in m && m[t[i].id] == t[i].post
    requires NewestFirst(t)
    ensures NewestFirst([PostView(k, m[k])] + t)
  {
  }

  /** The store's posts sorted by `createdAt`, newest first
      (`sort({ createdAt: -1 })`): every post exactly once, nothing else, in
      non-increasing creation order. Posts with equal stamps may come in any
      order, as the database leaves them. */
  ghost function Newest(m: map<PostId, Post>): (s: seq<PostView>)
    ensures ListsExactly(m, s) && NewestFirst(s)
    decreases |m|
  {
    if m == map[] then []
    else
      LatestExists(m);
      var k :| IsLatest(m, k);
      var rest := m - {k};
      assert rest.Keys == m.Keys - {k};
      var t := Newest(rest);
      PrependLatest(m, k, t);
      [PostView(k, m[k])] + t
  }

  /** A post created after every other one heads the newest-first order. */
  lemma NewestPostFirst(m: map<PostId, Post>, k: PostId)
    requires k in m
    requires forall j :: j in m && j != k ==> m[j].createdAt < m[k].createdAt
    ensures Newest(m) != [] && Newest(m)[0] == PostView(k, m[k])
  {
    var s := Newest(m);
    assert PostView(k, m[k]) in s;
    var i :| 0 <= i < |s| && s[i] == PostView(k, m[k]);
    assert s[0].post.createdAt >= s[i].post.createdAt;
  }

  // ---------------------------------------------------------------------
  // Listing posts
  // ---------------------------------------------------------------------

  /** The window `[skip, skip + limit)` of a newest-first listing, cut at its
      end as `skip(skip).limit(limit)` cuts it. */
  lemma PageWindow(m: map<PostId, Post>, s: seq<PostView>, skip: nat, limit: nat)
    requires ListsExactly(m, s) && NewestFirst(s)
    ensures var data := s[Min(skip, |s|)..Min(skip + limit, |s|)];
            && |data| <= limit
            && (skip >= |s| ==> data == [])
            && (skip < |s| ==> |data| == Min(limit, |s| - skip))
            && (forall i :: 0 <= i < |data| ==> skip + i < |s| && data[i] == s[skip + i])
            && (forall i :: 0 <= i < |data| ==> data[i].id in m && m[data[i].id] == data[i].post)
            && NewestFirst(data)
  {
  }

  /** `find().sort({ createdAt: -1 }).skip(skip).limit(limit)`: at most
      `limit` posts, starting at rank `skip` of the newest-first order; all of
      them stored posts and still newest first. */
  ghost function PageData(posts: map<PostId, Post>, skip: nat, limit: nat): (data: seq<PostView>)
    ensures |data| <= limit
    ensures skip >= |posts| ==> data == []
    ensures skip < |posts| ==> |data| == Min(limit, |posts| - skip)
    ensures forall i :: 0 <= i < |data| ==> skip + i < |posts| && data[i] == Newest(posts)[skip + i]
    ensures forall i :: 0 <= i < |data| ==> data[i].id in posts && posts[data[i].id] == data[i].post
    ensures NewestFirst(data)
  {
    var s := Newest(posts);
    PageWindow(posts, s, skip, limit);
    s[Min(skip, |s|)..Min(skip + limit, |s|)]
  }

  /** `getPosts`: a public read of one page of the store with the total, the
      page count and the neighbouring-page descriptors; `count` is the length
      of the page, never more than `limit`. */
  ghost function GetPosts(posts: map<PostId, Post>, query: Query): (r: Reply<PostList>)
    requires query.page != Some(0) && query.limit != Some(0)
    ensures r.Success? && r.status == 200
    ensures r.data.total == |posts| && r.data.page == PageOf(query)
    ensures r.data.pages == Pages(|posts|, LimitOf(query))
    ensures r.data.data == PageData(posts, Skip(PageOf(query), LimitOf(query)), LimitOf(query))
    ensures r.data.count == |r.data.data| <= LimitOf(query)
    ensures r.data.pagination == Pagination(NextRef(PageOf(query), LimitOf(query), |posts|),
                                            PrevRef(PageOf(query), LimitOf(query)))
  {
    var page, limit := PageOf(query), LimitOf(query);
    var total := |posts|;
    var data := PageData(posts, Skip(page, limit), limit);
    var pagination := Pagination(NextRef(page, limit, total), PrevRef(page, limit));
    Success(200, PostList(|data|, total, page, Pages(total, limit), pagination, data))
  }

  // ---------------------------------------------------------------------
  // The store and its mutating handlers
  // ---------------------------------------------------------------------

  class PostStore {
    var posts: map<PostId, Post>
    var nextId: PostId
    var clock: nat

    /** Every stored id was handed out by `nextId`, every stamp by `clock`. */
    ghost predicate Valid()
      reads this
    {
      forall id :: id in posts ==> id < nextId && posts[id].createdAt < clock
    }

    constructor ()
      ensures Valid() && posts == map[]
    {
      posts := map[];
      nextId := 0;
      clock := 0;
    }

    /** `createPost`: both fields must be truthy; the author is the requester,
        whatever the body says; exactly one post is added, and it is newer
        than every post already stored. */
    method CreatePost(requester: UserId, body: PostBody) returns (r: Reply<PostView>)
      requires Valid()
      modifies this
      ensures Valid()
      ensures !(Filled(body.title) && Filled(body.content)) ==>
                r == Failure(400, MissingFields) && unchanged(this)
      ensures Filled(body.title) && Filled(body.content) ==>
                && old(nextId) !in old(posts)
                && r == Success(201, PostView(old(nextId),
                                              Post(body.title.value, body.content.value, requester, old(clock))))
                && posts == old(posts)[old(nextId) := r.data.post]
                && |posts| == |old(posts)| + 1
                && (forall id :: id in old(posts) ==> old(posts)[id].createdAt < r.data.post.createdAt)
                && nextId == old(nextId) + 1 && clock == old(clock) + 1
    {
      if !Filled(body.title) || !Filled(body.content) {
        return Failure(400, MissingFields);
      }
      var id := nextId;
      var post := Post(body.title.value, body.content.value, requester, clock);
      posts := posts[id := post];
      nextId := nextId + 1;
      clock := clock + 1;
      r := Success(201, PostView(id, post));
    }

    /** `updatePost`: a 404 for an unknown id, a 401 unless the requester is the
        author (ids compared by value); otherwise the present fields are written
        into the record and it is saved. No other post changes, and no post ever
        changes author. */
    method UpdatePost(requester: UserId, id: PostId, body: PostBody) returns (r: Reply<PostView>)
      requires Valid()
      modifies this
      ensures Valid() && nextId == old(nextId) && clock == old(clock)
      ensures id !in old(posts) ==> r == Failure(404, PostNotFound) && posts == old(posts)
      ensures id in old(posts) && old(posts)[id].author != requester ==>
                r == Failure(401, NotAuthorUpdate) && posts == old(posts)
      ensures id in old(posts) && old(posts)[id].author == requester ==>
                && posts == old(posts)[id := ApplyPatch(old(posts)[id], body)]
                && r == Success(200, PostView(id, posts[id]))
      ensures posts.Keys == old(posts).Keys
      ensures forall k :: k in posts ==> posts[k].author == old(posts)[k].author
    {
      if id !in posts {
        return Failure(404, PostNotFound);
      }
      var post := posts[id];
      if post.author != requester {
        return Failure(401, NotAuthorUpdate);
      }
      if body.title.Some? {
        post := post.(title := body.title.value);
      }
      if body.content.Some? {
        post := post.(content := body.content.value);
      }
      posts := posts[id := post];
      r := Success(200, PostView(id, post));
    }

    /** `deletePost`: the same lookup and ownership check as an update; on
        success exactly that post is gone and every other one is untouched. */
    method DeletePost(requester: UserId, id: PostId) returns (r: Reply<()>)
      requires Valid()
      modifies this
      ensures Valid() && nextId == old(nextId) && clock == old(clock)
      ensures id !in old(posts) ==> r == Failure(404, PostNotFound) && posts == old(posts)
      ensures id in old(posts) && old(posts)[id].author != requester ==>
                r == Failure(401, NotAuthorDelete) && posts == old(posts)
      ensures id in old(posts) && old(posts)[id].author == requester ==>
                r == Success(200, ()) && posts == old(posts) - {id} && |posts| == |old(posts)| - 1
      ensures id !in posts || posts == old(posts)
    {
      if id !in posts {
        return Failure(404, PostNotFound);
      }
      if posts[id].author != requester {
        return Failure(401, NotAuthorDelete);
      }
      assert (posts - {id}).Keys == posts.Keys - {id};
      posts := posts - {id};
      r := Success(200, ());
    }
  }

  /** Two users and one post: only its author may change or remove it, an
      update touches only the fields it names, the new post heads page 1, and
      a second delete finds nothing. */
  method OwnershipScenario(alice: UserId, bob: UserId)
    requires alice != bob
  {
    var store := new PostStore();
    var created := store.CreatePost(alice, PostBody(Some("Hello"), Some("First post")));
    assert created.Success?;
    var id := created.data.id;
    assert GetPost(store.posts, id) == Success(200, created.data);
    NewestPostFirst(store.posts, id);
    var firstPage := GetPosts(store.posts, Query(None, None));
    assert firstPage.data.data == [created.data];

    var denied := store.UpdatePost(bob, id, PostBody(Some("Hijacked"), None));
    assert denied == Failure(401, NotAuthorUpdate);
    var patched := store.UpdatePost(alice, id, PostBody(Some("Hello again"), None));
    assert patched.Success? && patched.data.post.title == "Hello again";
    assert patched.data.post.content == "First post" && patched.data.post.author == alice;

    var removed := store.DeletePost(bob, id);
    assert removed == Failure(401, NotAuthorDelete);
    removed := store.DeletePost(alice, id);
    assert removed.Success?;
    removed := store.DeletePost(alice, id);
    assert removed == Failure(404, PostNotFound);
    assert GetPost(store.posts, id) == Failure(404, PostNotFound);
  }
}
