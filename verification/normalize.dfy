/** `parseBookmarksResponse` of `services/twitter.go`: joins each tweet with
    the included user that wrote it and flattens the page into a
    `BookmarkResponse`. */
module Normalize {
  import opened Models
  import opened Upstream

  /** The part of an included user a bookmark's author is filled from. */
  datatype UserInfo = UserInfo(username: string, name: string)

  /** `users[j]` is the last entry carrying its id. */
  ghost predicate LastWithId(users: seq<User>, j: int)
  {
    0 <= j < |users| && forall k :: j < k < |users| ==> users[k].id != users[j].id
  }

  /** The author-id lookup built in one pass over `includes.users`, each
      entry overwriting any earlier one with the same id. */
  function UserLookup(users: seq<User>): (m: map<string, UserInfo>)
    ensures m.Keys == set j | 0 <= j < |users| :: users[j].id
  {
    if |users| == 0 then map[]
    else
      var last := users[|users| - 1];
      UserLookup(users[..|users| - 1])[last.id := UserInfo(last.username, last.name)]
  }

  /** Duplicate ids in `includes.users`: the lookup holds the last entry. */
  lemma {:induction false} UserLookupLastWins(users: seq<User>, j: int)
    requires LastWithId(users, j)
    ensures UserLookup(users)[users[j].id] == UserInfo(users[j].username, users[j].name)
  {
    var n := |users| - 1;
    if j < n {
      assert users[n].id != users[j].id;
      var init := users[..n];
      assert init[j] == users[j];
      assert LastWithId(init, j) by {
        forall k | j < k < |init| ensures init[k].id != init[j].id {
          assert init[k] == users[k];
        }
      }
      UserLookupLastWins(init, j);
    }
  }

  /** The author of a tweet: always its `author_id`, with username and name
      when the lookup knows that id and empty strings otherwise. */
  function AuthorOf(t: Tweet, lookup: map<string, UserInfo>): Author
  {
    if t.authorId in lookup then Author(t.authorId, lookup[t.authorId].username, lookup[t.authorId].name)
    else Author(t.authorId, "", "")
  }

  /** The bookmark fields copied from the tweet: both ids are the tweet id,
      text and creation time unchanged, the author id is `author_id`. */
  predicate CopiesTweet(b: Bookmark, t: Tweet)
  {
    b.id == t.id && b.tweetId == t.id && b.text == t.text
    && b.createdAt == t.createdAt && b.author.id == t.authorId
  }

  /** The normalised page: one bookmark per tweet, in upstream order. */
  function ParseBookmarks(p: Page): (r: BookmarkResponse)
    ensures r.bookmarks.Slice?
    ensures r.nextToken == p.nextToken
    ensures |r.bookmarks.items| == |p.data|
    ensures forall i :: 0 <= i < |p.data| ==> CopiesTweet(r.bookmarks.items[i], p.data[i])
    ensures forall i, j :: 0 <= i < |p.data| && LastWithId(p.users, j) && p.users[j].id == p.data[i].authorId ==>
              r.bookmarks.items[i].author.username == p.users[j].username
              && r.bookmarks.items[i].author.name == p.users[j].name
    ensures forall i :: 0 <= i < |p.data| && (forall j :: 0 <= j < |p.users| ==> p.users[j].id != p.data[i].authorId) ==>
              r.bookmarks.items[i].author.username == "" && r.bookmarks.items[i].author.name == ""
  {
    var lookup := UserLookup(p.users);
    assert forall j :: LastWithId(p.users, j) ==> lookup[p.users[j].id] == UserInfo(p.users[j].username, p.users[j].name) by {
      forall j | LastWithId(p.users, j) ensures lookup[p.users[j].id] == UserInfo(p.users[j].username, p.users[j].name) {
        UserLookupLastWins(p.users, j);
      }
    }
    BookmarkResponse(
      Slice(seq(|p.data|, i requires 0 <= i < |p.data| =>
        var t := p.data[i];
        Bookmark(t.id, t.id, t.text, t.createdAt, AuthorOf(t, lookup)))),
      p.nextToken)
  }
}
