/**
 * The server's module-level `posts` array and the route handlers that change it
 * in place. Each handler is one atomic step; its answer replaces the HTTP response.
 */
module Server {
  import opened Wrappers
  import opened Posts

  class PostStore {
    /** The stored posts, in insertion order. */
    var posts: seq<Post>

    /** The two seed posts; the clock readings at start-up are parameters. */
    constructor (firstAt: int, secondAt: int)
      ensures posts == Seed(firstAt, secondAt)
      ensures IdsArePositions(posts) && UniqueIds(posts) && AllFilled(posts)
    {
      posts := Seed(firstAt, secondAt);
    }

    /** `posts.find` / `posts.findIndex` with `p.id == id`: a scan from the front. */
    method FindIndex(id: Option<int>) returns (index: Option<nat>)
      ensures index == FirstMatch(posts, id)
    {
      if id.None? {
        return None;
      }
      var i := 0;
      while i < |posts|
        invariant 0 <= i <= |posts|
        invariant forall j :: 0 <= j < i ==> posts[j].id != id.value
      {
        if posts[i].id == id.value {
          return Some(i);
        }
        i := i + 1;
      }
      return None;
    }

    /** GET /: a sorted copy, newest first; the store itself is only read. */
    function List(): (r: seq<Post>)
      reads this
      ensures NewestFirst(r)
      ensures multiset(r) == multiset(posts)
      ensures forall t :: StampedAt(r, t) == StampedAt(posts, t)
    {
      SortIsPermutation(posts);
      forall t ensures StampedAt(SortNewestFirst(posts), t) == StampedAt(posts, t) {
        SortKeepsStampOrder(posts, t);
      }
      SortNewestFirst(posts)
    }

    /** POST /posts */
    method Create(title: Option<string>, content: Option<string>, now: int) returns (response: Response)
      modifies this
      ensures Step(posts, response) == HandleCreate(old(posts), title, content, now)
    {
      if Truthy(title) && Truthy(content) {
        var post := Post(|posts| + 1, title.value, content.value, now);
        posts := posts + [post];
        response := Ok(post);
      } else {
        response := BadRequest;
      }
    }

    /** PATCH /posts/:id */
    method Update(id: Option<int>, title: Option<string>, content: Option<string>) returns (response: Response)
      modifies this
      ensures Step(posts, response) == HandleUpdate(old(posts), id, title, content)
    {
      var found := FindIndex(id);
      if found.None? {
        return NotFound;
      }
      var k := found.value;
      var post := posts[k];
      if Truthy(title) {
        post := post.(title := title.value);
      }
      if Truthy(content) {
        post := post.(content := content.value);
      }
      posts := posts[k := post];
      response := Ok(post);
    }

    /** DELETE /posts/:id */
    method Delete(id: Option<int>) returns (response: Response)
      modifies this
      ensures Step(posts, response) == HandleDelete(old(posts), id)
    {
      var found := FindIndex(id);
      if found.None? {
        return NotFound;
      }
      var k := found.value;
      posts := posts[..k] + posts[k + 1..];
      response := Deleted;
    }
  }

  /** Create a post, edit its title, then delete it twice: the edit keeps the content and the second delete finds nothing. */
  method CreateEditDeleteScenario(seedAt: int, now: int) returns (edited: Response, firstDelete: Response, secondDelete: Response)
    ensures edited == Ok(Post(3, "Updated", "Learning Dafny", now))
    ensures firstDelete == Deleted && secondDelete == NotFound
  {
    var store := new PostStore(seedAt, seedAt);
    CreateUpdateDeleteById(store.posts, "Third Post", "Learning Dafny", now, "Updated");
    var created := store.Create(Some("Third Post"), Some("Learning Dafny"), now);
    edited := store.Update(Some(3), Some("Updated"), None);
    firstDelete := store.Delete(Some(3));
    secondDelete := store.Delete(Some(3));
  }
}
