/**
 * The blog's in-memory post store as values: what each request handler does
 * to the ordered list of posts and what it answers, the listing order of the
 * home page, and what a sequence of requests does to the store.
 */
module Posts {
  import opened Wrappers

  /** One stored post; `createdAt` is a timestamp in milliseconds. */
  datatype Post = Post(id: int, title: string, content: string, createdAt: int)

  /** What a handler answers, in place of the HTTP status and JSON body. */
  datatype Response =
    | Ok(post: Post)   // 200 with the created or updated post
    | Deleted          // 200 with only a message
    | BadRequest       // 400 "Title and content are required."
    | NotFound         // 404 "Post not found."

  /** A request as the store sees it: body fields that may be absent, a path id that may not be a number. */
  datatype Request =
    | CreatePost(title: Option<string>, content: Option<string>, now: int)
    | UpdatePost(id: Option<int>, title: Option<string>, content: Option<string>)
    | DeletePost(id: Option<int>)

  /** The store after a handler and the handler's answer. */
  datatype Step = Step(posts: seq<Post>, response: Response)

  /** JavaScript truthiness of a string body field: present and non-empty. */
  predicate Truthy(field: Option<string>)
  {
    field.Some? && field.value != []
  }

  /** The two posts the server starts with; both timestamps come from the clock at start-up. */
  function Seed(firstAt: int, secondAt: int): (r: seq<Post>)
    ensures |r| == 2 && r[0].createdAt == firstAt && r[1].createdAt == secondAt
    ensures IdsArePositions(r) && UniqueIds(r) && AllFilled(r)
  {
    [ Post(1, "First Post", "Welcome to my blog!", firstAt),
      Post(2, "Second Post", "Learning EJS is fun!", secondAt) ]
  }

  /** Post i carries id i + 1: what the `length + 1` rule gives while nothing is deleted. */
  ghost predicate IdsArePositions(posts: seq<Post>)
  {
    forall i :: 0 <= i < |posts| ==> posts[i].id == i + 1
  }

  ghost predicate UniqueIds(posts: seq<Post>)
  {
    forall i, j :: 0 <= i < j < |posts| ==> posts[i].id != posts[j].id
  }

  /** Every stored post has a non-empty title and a non-empty content. */
  ghost predicate AllFilled(posts: seq<Post>)
  {
    forall i :: 0 <= i < |posts| ==> posts[i].title != [] && posts[i].content != []
  }

  /** The position of the first post whose id equals the path id; None when the id is not a number or matches nothing. */
  function FirstMatch(posts: seq<Post>, id: Option<int>): (r: Option<nat>)
    ensures r.Some? ==> id.Some? && r.value < |posts| && posts[r.value].id == id.value
    ensures r.Some? ==> forall j :: 0 <= j < r.value ==> posts[j].id != id.value
    ensures r.None? ==> id.None? || forall j :: 0 <= j < |posts| ==> posts[j].id != id.value
  {
    if id.None? || posts == [] then None
    else if posts[0].id == id.value then Some(0)
    else match FirstMatch(posts[1..], id)
      case None => None
      case Some(k) => Some(k + 1)
  }

  /** POST /posts: append a post with id `length + 1` when title and content are both truthy. */
  function HandleCreate(posts: seq<Post>, title: Option<string>, content: Option<string>, now: int): (r: Step)
    ensures Truthy(title) && Truthy(content) ==>
      && |r.posts| == |posts| + 1
      && r.posts[..|posts|] == posts
      && r.posts[|posts|] == Post(|posts| + 1, title.value, content.value, now)
      && r.response == Ok(r.posts[|posts|])
    ensures !(Truthy(title) && Truthy(content)) ==> r.posts == posts && r.response == BadRequest
  {
    if Truthy(title) && Truthy(content) then
      var post := Post(|posts| + 1, title.value, content.value, now);
      Step(posts + [post], Ok(post))
    else
      Step(posts, BadRequest)
  }

  /** The post after PATCH: each field is overwritten only by a truthy value. */
  function Patch(post: Post, title: Option<string>, content: Option<string>): (r: Post)
    ensures r.id == post.id && r.createdAt == post.createdAt
    ensures r.title != post.title ==> Truthy(title)
    ensures Truthy(title) ==> r.title == title.value
    ensures r.content != post.content ==> Truthy(content)
    ensures Truthy(content) ==> r.content == content.value
  {
    post.(title := if Truthy(title) then title.value else post.title,
          content := if Truthy(content) then content.value else post.content)
  }

  /** PATCH /posts/:id: patch the first post with that id, or answer NotFound. */
  function HandleUpdate(posts: seq<Post>, id: Option<int>, title: Option<string>, content: Option<string>): (r: Step)
    ensures FirstMatch(posts, id).None? ==> r.posts == posts && r.response == NotFound
    ensures FirstMatch(posts, id).Some? ==>
      var k := FirstMatch(posts, id).value;
      && |r.posts| == |posts|
      && (forall j :: 0 <= j < |posts| && j != k ==> r.posts[j] == posts[j])
      && r.posts[k].id == posts[k].id
      && r.posts[k].createdAt == posts[k].createdAt
      && (r.posts[k].title == if Truthy(title) then title.value else posts[k].title)
      && (r.posts[k].content == if Truthy(content) then content.value else posts[k].content)
      && r.response == Ok(r.posts[k])
  {
    match FirstMatch(posts, id)
    case None => Step(posts, NotFound)
    case Some(k) =>
      var post := Patch(posts[k], title, content);
      Step(posts[k := post], Ok(post))
  }

  /** DELETE /posts/:id: remove the first post with that id, or answer NotFound. */
  function HandleDelete(posts: seq<Post>, id: Option<int>): (r: Step)
    ensures FirstMatch(posts, id).None? ==> r.posts == posts && r.response == NotFound
    ensures FirstMatch(posts, id).Some? ==>
      var k := FirstMatch(posts, id).value;
      && r.response == Deleted
      && |r.posts| == |posts| - 1
      && r.posts == posts[..k] + posts[k + 1..]
      && multiset(r.posts) + multiset{posts[k]} == multiset(posts)
  {
    match FirstMatch(posts, id)
    case None => Step(posts, NotFound)
    case Some(k) =>
      assert posts == posts[..k] + [posts[k]] + posts[k + 1..];
      Step(posts[..k] + posts[k + 1..], Deleted)
  }

  function Handle(posts: seq<Post>, req: Request): Step
  {
    match req
    case CreatePost(title, content, now) => HandleCreate(posts, title, content, now)
    case UpdatePost(id, title, content) => HandleUpdate(posts, id, title, content)
    case DeletePost(id) => HandleDelete(posts, id)
  }

  /** The store after serving the requests one after the other. */
  function Run(posts: seq<Post>, reqs: seq<Request>): seq<Post>
    decreases |reqs|
  {
    if reqs == [] then posts else Run(Handle(posts, reqs[0]).posts, reqs[1..])
  }

  predicate NoDeletes(reqs: seq<Request>)
  {
    forall i :: 0 <= i < |reqs| ==> !reqs[i].DeletePost?
  }

  // ---------------------------------------------------------------------
  // Listing: the home page shows a stable sort of a copy, newest first.
  // ---------------------------------------------------------------------

  predicate NewestFirst(s: seq<Post>)
  {
    forall i, j :: 0 <= i < j < |s| ==> s[i].createdAt >= s[j].createdAt
  }

  /** The posts of `s` stamped `t`, in their order in `s`. */
  function StampedAt(s: seq<Post>, t: int): seq<Post>
  {
    if s == [] then [] else (if s[0].createdAt == t then [s[0]] else []) + StampedAt(s[1..], t)
  }

  /** Put `p` before every post that is not newer than it. */
  function InsertNewestFirst(p: Post, s: seq<Post>): (r: seq<Post>)
    requires NewestFirst(s)
    ensures NewestFirst(r)
    ensures |r| == |s| + 1
    ensures r[0] == p || (s != [] && r[0] == s[0])
  {
    if s == [] || p.createdAt >= s[0].createdAt then [p] + s
    else
      var rest := InsertNewestFirst(p, s[1..]);
      assert s == [s[0]] + s[1..];
      assert forall j :: 0 <= j < |rest| ==> rest[0].createdAt >= rest[j].createdAt;
      assert s[0].createdAt >= rest[0].createdAt;
      [s[0]] + rest
  }

  /** The comparator `b.createdAt - a.createdAt` under a stable sort. */
  function SortNewestFirst(s: seq<Post>): (r: seq<Post>)
    ensures NewestFirst(r)
    ensures |r| == |s|
  {
    if s == [] then []
    else
      assert s == [s[0]] + s[1..];
      InsertNewestFirst(s[0], SortNewestFirst(s[1..]))
  }

  lemma MultisetCons(s: seq<Post>)
    requires s != []
    ensures multiset(s) == multiset{s[0]} + multiset(s[1..])
  {
    assert s == [s[0]] + s[1..];
  }

  lemma {:induction false} InsertIsPermutation(p: Post, s: seq<Post>)
    requires NewestFirst(s)
    ensures multiset(InsertNewestFirst(p, s)) == multiset(s) + multiset{p}
  {
    if s != [] && p.createdAt < s[0].createdAt {
      InsertIsPermutation(p, s[1..]);
      MultisetCons(s);
    }
  }

  /** The listing holds exactly the stored posts. */
  lemma {:induction false} SortIsPermutation(s: seq<Post>)
    ensures multiset(SortNewestFirst(s)) == multiset(s)
  {
    if s != [] {
      var tail := SortNewestFirst(s[1..]);
      SortIsPermutation(s[1..]);
      InsertIsPermutation(s[0], tail);
      MultisetCons(s);
    }
  }

  lemma {:induction false} InsertKeepsStampOrder(p: Post, s: seq<Post>, t: int)
    requires NewestFirst(s)
    ensures StampedAt(InsertNewestFirst(p, s), t) == (if p.createdAt == t then [p] else []) + StampedAt(s, t)
  {
    var r := InsertNewestFirst(p, s);
    if s == [] || p.createdAt >= s[0].createdAt {
      assert r[1..] == s;
    } else {
      var rest := InsertNewestFirst(p, s[1..]);
      assert r == [s[0]] + rest && r[1..] == rest;
      InsertKeepsStampOrder(p, s[1..], t);
      var head := if s[0].createdAt == t then [s[0]] else [];
      var mine := if p.createdAt == t then [p] else [];
      assert StampedAt(r, t) == head + StampedAt(rest, t);
      assert StampedAt(s, t) == head + StampedAt(s[1..], t);
      assert head == [] || mine == [];
    }
  }

  /** Stability: posts with equal timestamps keep their storage order. */
  lemma {:induction false} SortKeepsStampOrder(s: seq<Post>, t: int)
    ensures StampedAt(SortNewestFirst(s), t) == StampedAt(s, t)
  {
    if s != [] {
      SortKeepsStampOrder(s[1..], t);
      InsertKeepsStampOrder(s[0], SortNewestFirst(s[1..]), t);
    }
  }

  // ---------------------------------------------------------------------
  // Properties of single handlers and of request sequences.
  // ---------------------------------------------------------------------

  /** A path id that is not a number never reaches a post. */
  lemma NonNumericIdNotFound(posts: seq<Post>, title: Option<string>, content: Option<string>)
    ensures HandleUpdate(posts, None, title, content) == Step(posts, NotFound)
    ensures HandleDelete(posts, None) == Step(posts, NotFound)
  {
  }

  /** Updating with empty strings, or with no fields, changes no stored post. */
  lemma EmptyUpdateIsNoOp(posts: seq<Post>, id: Option<int>, title: Option<string>, content: Option<string>)
    requires !Truthy(title) && !Truthy(content)
    ensures HandleUpdate(posts, id, title, content).posts == posts
  {
  }

  /** With unique ids, deleting the same id a second time answers NotFound. */
  lemma SecondDeleteNotFound(posts: seq<Post>, id: Option<int>)
    requires UniqueIds(posts)
    requires FirstMatch(posts, id).Some?
    ensures HandleDelete(HandleDelete(posts, id).posts, id) == Step(HandleDelete(posts, id).posts, NotFound)
  {
  }

  /** Creates and updates keep "post i has id i + 1"; only a delete breaks it. */
  lemma HandleKeepsIdsArePositions(posts: seq<Post>, req: Request)
    requires IdsArePositions(posts)
    requires !req.DeletePost?
    ensures IdsArePositions(Handle(posts, req).posts)
  {
  }

  /** As long as nothing is deleted, post i has id i + 1, so ids are unique. */
  lemma {:induction false} NoDeletesKeepIdsArePositions(posts: seq<Post>, reqs: seq<Request>)
    requires IdsArePositions(posts)
    requires NoDeletes(reqs)
    ensures IdsArePositions(Run(posts, reqs))
    ensures UniqueIds(Run(posts, reqs))
    decreases |reqs|
  {
    if reqs != [] {
      HandleKeepsIdsArePositions(posts, reqs[0]);
      assert NoDeletes(reqs[1..]) by {
        forall i | 0 <= i < |reqs[1..]|
          ensures !reqs[1..][i].DeletePost?
        {
          assert reqs[1..][i] == reqs[i + 1];
        }
      }
      NoDeletesKeepIdsArePositions(Handle(posts, reqs[0]).posts, reqs[1..]);
    }
  }

  /** From the seed, creates and updates alone leave ids 1, 2, ..., n in storage order. */
  lemma SeedWithoutDeletesHasUniqueIds(firstAt: int, secondAt: int, reqs: seq<Request>)
    requires NoDeletes(reqs)
    ensures IdsArePositions(Run(Seed(firstAt, secondAt), reqs))
    ensures UniqueIds(Run(Seed(firstAt, secondAt), reqs))
  {
    NoDeletesKeepIdsArePositions(Seed(firstAt, secondAt), reqs);
  }

  /** The `length + 1` rule reuses an id: delete post 1 of the seed, create, and two posts carry id 2. */
  lemma DeleteThenCreateDuplicatesId(firstAt: int, secondAt: int, title: string, content: string, now: int)
    requires title != [] && content != []
    ensures var after := Run(Seed(firstAt, secondAt), [DeletePost(Some(1)), CreatePost(Some(title), Some(content), now)]);
      && |after| == 2
      && after[0].id == 2 && after[1].id == 2
      && !UniqueIds(after)
  {
    var reqs := [DeletePost(Some(1)), CreatePost(Some(title), Some(content), now)];
    var seed := Seed(firstAt, secondAt);
    var afterDelete := HandleDelete(seed, Some(1)).posts;
    assert FirstMatch(seed, Some(1)) == Some(0);
    assert afterDelete == [seed[1]];
    var afterCreate := HandleCreate(afterDelete, Some(title), Some(content), now).posts;
    assert Run(seed, reqs) == Run(afterDelete, reqs[1..]);
    assert reqs[1..][0] == CreatePost(Some(title), Some(content), now) && reqs[1..][1..] == [];
    assert Run(afterDelete, reqs[1..]) == Run(afterCreate, []);
  }

  /** No request ever stores an empty title or content. */
  lemma HandleKeepsAllFilled(posts: seq<Post>, req: Request)
    requires AllFilled(posts)
    ensures AllFilled(Handle(posts, req).posts)
  {
  }

  /** From the seed, every stored post has a non-empty title and content, whatever was requested. */
  lemma {:induction false} RunKeepsAllFilled(posts: seq<Post>, reqs: seq<Request>)
    requires AllFilled(posts)
    ensures AllFilled(Run(posts, reqs))
    decreases |reqs|
  {
    if reqs != [] {
      HandleKeepsAllFilled(posts, reqs[0]);
      RunKeepsAllFilled(Handle(posts, reqs[0]).posts, reqs[1..]);
    }
  }

  /** A post appended after posts that all carry other ids is the first match of its own id. */
  lemma {:induction false} FirstMatchOfAppended(posts: seq<Post>, p: Post)
    requires forall j :: 0 <= j < |posts| ==> posts[j].id != p.id
    ensures FirstMatch(posts + [p], Some(p.id)) == Some(|posts|)
  {
    if posts != [] {
      assert (posts + [p])[0] == posts[0] && (posts + [p])[1..] == posts[1..] + [p];
      FirstMatchOfAppended(posts[1..], p);
    }
  }

  /**
   * While ids match positions, a created post is reached by the id it was given:
   * updating its title keeps its content, deleting it restores the store, and
   * a second delete of that id answers NotFound.
   */
  lemma CreateUpdateDeleteById(posts: seq<Post>, title: string, content: string, now: int, newTitle: string)
    requires IdsArePositions(posts)
    requires title != [] && content != [] && newTitle != []
    ensures var id := |posts| + 1;
      var created := Post(id, title, content, now);
      var edited := Post(id, newTitle, content, now);
      && HandleCreate(posts, Some(title), Some(content), now) == Step(posts + [created], Ok(created))
      && HandleUpdate(posts + [created], Some(id), Some(newTitle), None) == Step(posts + [edited], Ok(edited))
      && HandleDelete(posts + [edited], Some(id)) == Step(posts, Deleted)
      && HandleDelete(posts, Some(id)) == Step(posts, NotFound)
  {
    var id := |posts| + 1;
    var created := Post(id, title, content, now);
    var edited := Post(id, newTitle, content, now);
    FirstMatchOfAppended(posts, created);
    FirstMatchOfAppended(posts, edited);
    assert (posts + [created])[|posts| := edited] == posts + [edited];
    assert (posts + [edited])[..|posts|] + (posts + [edited])[|posts| + 1..] == posts;
  }

  /** Two posts created later than the seed, the later one first: the listing is newest first, seed posts last in storage order. */
  lemma ListingAfterTwoCreates(seedAt: int, a: Post, b: Post)
    requires seedAt < a.createdAt < b.createdAt
    ensures SortNewestFirst(Seed(seedAt, seedAt) + [a, b]) == [b, a] + Seed(seedAt, seedAt)
  {
    var seed := Seed(seedAt, seedAt);
    SortFourPosts(seed[0], seed[1], a, b);
    assert seed + [a, b] == [seed[0], seed[1], a, b];
  }

  lemma SortFourPosts(p: Post, q: Post, a: Post, b: Post)
    requires p.createdAt == q.createdAt < a.createdAt < b.createdAt
    ensures SortNewestFirst([p, q, a, b]) == [b, a, p, q]
  {
    SortedTail([b], []);
    SortedTail([a, b], [b]);
    InsertAfter(a, [b], []);
    assert SortNewestFirst([a, b]) == [b, a];
    SortedTail([q, a, b], [a, b]);
    InsertAfter(q, [b, a], [a]);
    InsertAfter(q, [a], []);
    assert SortNewestFirst([q, a, b]) == [b, a, q];
    SortedTail([p, q, a, b], [q, a, b]);
    InsertAfter(p, [b, a, q], [a, q]);
    InsertAfter(p, [a, q], [q]);
    assert InsertNewestFirst(p, [q]) == [p, q];
  }

  lemma SortedTail(s: seq<Post>, tail: seq<Post>)
    requires s != [] && tail == s[1..]
    ensures SortNewestFirst(s) == InsertNewestFirst(s[0], SortNewestFirst(tail))
  {
  }

  lemma InsertAfter(p: Post, s: seq<Post>, tail: seq<Post>)
    requires NewestFirst(s) && s != [] && tail == s[1..] && p.createdAt < s[0].createdAt
    ensures NewestFirst(tail)
    ensures InsertNewestFirst(p, s) == [s[0]] + InsertNewestFirst(p, tail)
  {
  }
}
