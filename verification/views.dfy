/** The request handlers of yatube/posts/views.py. Handlers that change the
    tables are methods of `Site`, which holds them; handlers that only read are
    functions of a snapshot of the tables. */
module Views {
  import opened Models
  import opened Utils

  datatype HttpMethod = GetRequest | PostRequest

  /** The data a valid `PostForm` binds. `image` is None when no new file is
      uploaded and the current one is kept, Some(name) with the stored file name
      of an upload, and Some("") when the form's clear box removes the image. */
  datatype PostFormData = PostFormData(text: string, group: Option<nat>, image: Option<string>)

  datatype CommentFormData = CommentFormData(text: string)

  datatype Page = ProfilePage(username: UserName) | PostDetailPage(pk: nat)

  /** What a handler answers: a 404, a redirect, or the post form page
      (`posts/create_post.html`, with `is_edit` set when editing). */
  datatype Response = NotFound | Redirect(to: Page) | PostFormPage(isEdit: bool)

  // ----- get_object_or_404 lookups -----

  /** `get_object_or_404(Post, pk=pk)`: the position of the post with that key. */
  function FindPost(posts: seq<Post>, pk: nat): (r: Option<nat>)
    ensures r.Some? ==> r.value < |posts| && posts[r.value].id == pk
    ensures r.None? <==> !HasPost(posts, pk)
  {
    if posts == [] then None
    else if posts[0].id == pk then Some(0)
    else match FindPost(posts[1..], pk)
      case None => None
      case Some(i) => Some(i + 1)
  }

  /** `get_object_or_404(Group, slug=slug)`. */
  function FindGroup(groups: seq<Group>, slug: string): (r: Option<Group>)
    ensures r.Some? ==> r.value in groups && r.value.slug == slug
    ensures r.None? <==> forall g :: g in groups ==> g.slug != slug
  {
    if groups == [] then None
    else if groups[0].slug == slug then Some(groups[0])
    else FindGroup(groups[1..], slug)
  }

  // ----- the follow table under profile_follow / profile_unfollow -----

  /** The set of (user, author) pairs the follow rows hold. */
  function Pairs(follows: seq<Follow>): set<Follow> {
    set f | f in follows
  }

  /** `profile_follow`'s effect on the follow table: a row is created only for
      another user that is not followed yet. */
  function FollowRows(follows: seq<Follow>, user: UserName, author: UserName): seq<Follow> {
    if author != user && Follow(user, author) !in follows then follows + [Follow(user, author)]
    else follows
  }

  /** `.delete()` of a follow row: every row equal to `f` is removed. */
  function Without(follows: seq<Follow>, f: Follow): (r: seq<Follow>)
    ensures forall g :: g in r <==> g in follows && g != f
  {
    if follows == [] then []
    else (if follows[0] == f then [] else [follows[0]]) + Without(follows[1..], f)
  }

  /** `profile_unfollow`'s effect on the follow table: the row is deleted only
      for another user that is followed. */
  function UnfollowRows(follows: seq<Follow>, user: UserName, author: UserName): seq<Follow> {
    if author != user && Follow(user, author) in follows then Without(follows, Follow(user, author))
    else follows
  }

  /** Deleting a row the unique constraint keeps single removes exactly one row
      and keeps the rest unique. */
  lemma {:induction false} WithoutOne(follows: seq<Follow>, f: Follow)
    requires NoDuplicates(follows)
    ensures |Without(follows, f)| == if f in follows then |follows| - 1 else |follows|
    ensures NoDuplicates(Without(follows, f))
  {
    if follows != [] {
      var tail := follows[1..];
      assert NoDuplicates(tail) by {
        forall i, j | 0 <= i < j < |tail| ensures tail[i] != tail[j] {
          assert tail[i] == follows[i + 1] && tail[j] == follows[j + 1];
        }
      }
      assert follows[0] !in tail by {
        forall k | 0 <= k < |tail| ensures tail[k] != follows[0] {
          assert tail[k] == follows[k + 1];
        }
      }
      WithoutOne(tail, f);
      assert f in follows <==> f == follows[0] || f in tail by {
        assert follows == [follows[0]] + tail;
      }
    }
  }

  /** Deleting a row that is not there changes nothing. */
  lemma {:induction false} WithoutAbsent(follows: seq<Follow>, f: Follow)
    requires f !in follows
    ensures Without(follows, f) == follows
  {
    if follows != [] {
      WithoutAbsent(follows[1..], f);
      assert follows == [follows[0]] + follows[1..];
    }
  }

  /** Following another, not yet followed user adds exactly that pair; following
      oneself or a followed user changes nothing; no other pair is touched. */
  lemma FollowEffect(follows: seq<Follow>, user: UserName, author: UserName)
    ensures Pairs(FollowRows(follows, user, author)) ==
      if author != user then Pairs(follows) + {Follow(user, author)} else Pairs(follows)
    ensures author == user || Follow(user, author) in follows ==> FollowRows(follows, user, author) == follows
    ensures forall g :: g != Follow(user, author) ==>
      (g in FollowRows(follows, user, author) <==> g in follows)
  {
  }

  /** Following twice is following once. */
  lemma FollowIdempotent(follows: seq<Follow>, user: UserName, author: UserName)
    ensures FollowRows(FollowRows(follows, user, author), user, author) == FollowRows(follows, user, author)
  {
  }

  /** `profile_follow` never creates a self-follow, and keeps the rows unique. */
  lemma FollowKeepsConstraints(follows: seq<Follow>, user: UserName, author: UserName)
    ensures forall u :: Follow(u, u) in FollowRows(follows, user, author) ==> Follow(u, u) in follows
    ensures NoDuplicates(follows) ==> NoDuplicates(FollowRows(follows, user, author))
  {
  }

  /** Unfollowing another user removes that pair if present and nothing else;
      unfollowing oneself changes nothing; the rows stay unique. */
  lemma UnfollowEffect(follows: seq<Follow>, user: UserName, author: UserName)
    requires NoDuplicates(follows)
    ensures Pairs(UnfollowRows(follows, user, author)) ==
      if author != user then Pairs(follows) - {Follow(user, author)} else Pairs(follows)
    ensures |UnfollowRows(follows, user, author)| ==
      if author != user && Follow(user, author) in follows then |follows| - 1 else |follows|
    ensures author == user || Follow(user, author) !in follows ==> UnfollowRows(follows, user, author) == follows
    ensures NoDuplicates(UnfollowRows(follows, user, author))
  {
    WithoutOne(follows, Follow(user, author));
  }

  /** Unfollowing undoes a follow that created a row. */
  lemma FollowThenUnfollow(follows: seq<Follow>, user: UserName, author: UserName)
    requires author != user && Follow(user, author) !in follows
    ensures UnfollowRows(FollowRows(follows, user, author), user, author) == follows
  {
    var f := Follow(user, author);
    WithoutAbsent(follows, f);
    assert Without(follows + [f], f) == Without(follows, f) by {
      WithoutAppend(follows, f);
    }
  }

  lemma {:induction false} WithoutAppend(follows: seq<Follow>, f: Follow)
    ensures Without(follows + [f], f) == Without(follows, f)
  {
    if follows == [] {
      assert Without([f], f) == [] + Without([], f);
    } else {
      assert (follows + [f])[1..] == follows[1..] + [f];
      WithoutAppend(follows[1..], f);
    }
  }

  /** Following again after unfollowing restores the same pairs. */
  lemma UnfollowThenFollow(follows: seq<Follow>, user: UserName, author: UserName)
    requires NoDuplicates(follows) && author != user && Follow(user, author) in follows
    ensures Pairs(FollowRows(UnfollowRows(follows, user, author), user, author)) == Pairs(follows)
  {
    UnfollowEffect(follows, user, author);
  }

  // ----- read-only handlers -----

  /** `index`: every post, newest first. */
  function Index(db: Db): (r: seq<Post>)
    ensures DescendingBy(r, PubDate)
    ensures multiset(r) == multiset(db.posts)
  {
    NewestPosts(db.posts)
  }

  datatype GroupContext = GroupContext(group: Group, posts: seq<Post>)

  /** `group_posts`: the group with the slug and its posts, newest first; 404
      when no group has the slug. */
  function GroupPosts(db: Db, slug: string): (r: Option<GroupContext>)
    ensures r.None? <==> forall g :: g in db.groups ==> g.slug != slug
    ensures r.Some? ==> r.value.group in db.groups && r.value.group.slug == slug
    ensures r.Some? ==> DescendingBy(r.value.posts, PubDate)
    ensures r.Some? ==> forall p :: p in r.value.posts <==>
      p in db.posts && p.group == Some(r.value.group.id)
    ensures r.Some? ==> forall p :: multiset(r.value.posts)[p] == (if p.group == Some(r.value.group.id) then multiset(db.posts)[p] else 0)
  {
    match FindGroup(db.groups, slug)
    case None => None
    case Some(g) =>
      var posts := NewestPosts(Where(db.posts, (p: Post) => p.group == Some(g.id)));
      assert forall p :: p in posts <==> p in multiset(posts);
      Some(GroupContext(g, posts))
  }

  datatype ProfileContext = ProfileContext(author: UserName, count: nat, posts: seq<Post>, following: bool)

  /** `profile`: the author's posts, newest first, their number, and whether the
      viewer, when logged in, follows the author; 404 for an unknown username. */
  function Profile(db: Db, viewer: Option<UserName>, username: UserName): (r: Option<ProfileContext>)
    ensures r.None? <==> username !in db.users
    ensures r.Some? ==> r.value.author == username && r.value.count == |r.value.posts|
    ensures r.Some? ==> DescendingBy(r.value.posts, PubDate)
    ensures r.Some? ==> forall p :: p in r.value.posts <==> p in db.posts && p.author == username
    ensures r.Some? ==> forall p :: multiset(r.value.posts)[p] == (if p.author == username then multiset(db.posts)[p] else 0)
    ensures r.Some? ==> (r.value.following <==>
      viewer.Some? && Follow(viewer.value, username) in db.follows)
  {
    if username !in db.users then None
    else
      var postsList := PostsBy(db.posts, username);
      var posts := NewestPosts(postsList);
      assert forall p :: p in posts <==> p in multiset(posts);
      var following := match viewer
        case None => false
        case Some(user) => username in FollowedAuthors(db.follows, user);
      FollowedAuthorsMembership(db.follows, if viewer.Some? then viewer.value else "");
      Some(ProfileContext(username, |postsList|, posts, following))
  }

  datatype PostDetailContext = PostDetailContext(post: Post, comments: seq<Comment>, count: nat)

  /** `post_detail`: the post, its comments newest first, and how many posts its
      author has; 404 for an unknown key. */
  function PostDetail(db: Db, pk: nat): (r: Option<PostDetailContext>)
    ensures r.None? <==> !HasPost(db.posts, pk)
    ensures r.Some? ==> r.value.post in db.posts && r.value.post.id == pk
    ensures r.Some? ==> DescendingBy(r.value.comments, Created)
    ensures r.Some? ==> forall c :: c in r.value.comments <==> c in db.comments && c.post == pk
    ensures r.Some? ==> forall c :: multiset(r.value.comments)[c] == (if c.post == pk then multiset(db.comments)[c] else 0)
    ensures r.Some? ==> r.value.count == |PostsBy(db.posts, r.value.post.author)|
  {
    match FindPost(db.posts, pk)
    case None => None
    case Some(i) =>
      var post := db.posts[i];
      var comments := NewestComments(Where(db.comments, (c: Comment) => c.post == post.id));
      assert forall c :: c in comments <==> c in multiset(comments);
      Some(PostDetailContext(post, comments, |PostsBy(db.posts, post.author)|))
  }

  /** `follow_index`: exactly the posts of the authors `user` follows, newest first. */
  function FollowIndex(db: Db, user: UserName): (r: seq<Post>)
    ensures DescendingBy(r, PubDate)
    ensures forall p :: p in r <==> p in db.posts && Follow(user, p.author) in db.follows
    ensures forall p :: multiset(r)[p] == (if Follow(user, p.author) in db.follows then multiset(db.posts)[p] else 0)
  {
    var followingList := FollowedAuthors(db.follows, user);
    FollowedAuthorsMembership(db.follows, user);
    var posts := NewestPosts(Where(db.posts, (p: Post) => p.author in followingList));
    assert forall p :: p in posts <==> p in multiset(posts);
    posts
  }

  /** After following another user, that user's posts are in the follow feed. */
  lemma FollowShowsPosts(db: Db, user: UserName, author: UserName)
    requires author != user
    ensures forall p :: p in db.posts && p.author == author ==>
      p in FollowIndex(db.(follows := FollowRows(db.follows, user, author)), user)
  {
  }

  /** After unfollowing a user, none of that user's posts is in the follow feed. */
  lemma UnfollowHidesPosts(db: Db, user: UserName, author: UserName)
    requires NoDuplicates(db.follows) && author != user
    ensures forall p :: p in db.posts && p.author == author ==>
      p !in FollowIndex(db.(follows := UnfollowRows(db.follows, user, author)), user)
  {
    UnfollowEffect(db.follows, user, author);
  }

  /** Trying to follow oneself does not put one's own posts in one's feed. */
  lemma SelfFollowShowsNothing(db: Db, user: UserName)
    requires Follow(user, user) !in db.follows
    ensures forall p :: p in db.posts && p.author == user ==>
      p !in FollowIndex(db.(follows := FollowRows(db.follows, user, user)), user)
  {
  }

  // ----- handlers that change the tables -----

  /** The image a saved form leaves on a post: the new upload, or the current one. */
  function SavedImage(upload: Option<string>, current: string): string {
    match upload
    case None => current
    case Some(name) => name
  }

  /** The row `create_post` saves: the form's fields, the requesting user as author,
      the save time as publication date, and the default empty title. */
  function NewPost(id: nat, user: UserName, form: PostFormData, now: int): Post {
    Post(id, "", form.text, now, user, form.group, SavedImage(form.image, ""))
  }

  /** What a valid `PostForm` bound to `post` saves: text, group and image change;
      key, title, author and publication date stay. */
  function EditedPost(post: Post, form: PostFormData): (r: Post)
    ensures r.id == post.id && r.title == post.title
    ensures r.author == post.author && r.pubDate == post.pubDate
    ensures r.text == form.text && r.group == form.group
    ensures r.image == SavedImage(form.image, post.image)
  {
    post.(text := form.text, group := form.group, image := SavedImage(form.image, post.image))
  }

  class Site {
    var users: set<UserName>
    var groups: seq<Group>
    var posts: seq<Post>
    var comments: seq<Comment>
    var follows: seq<Follow>
    /** The primary key the next saved post receives. */
    var nextPostId: nat

    /** The tables as a value, for the read-only handlers. */
    function Snapshot(): Db
      reads this
    {
      Db(users, groups, posts, comments, follows)
    }

    ghost predicate Valid()
      reads this
    {
      Constraints(Snapshot()) && forall p :: p in posts ==> p.id < nextPostId
    }

    /** A site with the given accounts and groups and no posts, comments or follows. */
    constructor (users: set<UserName>, groups: seq<Group>)
      requires UniqueGroups(groups)
      ensures Valid()
      ensures this.users == users && this.groups == groups
      ensures posts == [] && comments == [] && follows == []
    {
      this.users := users;
      this.groups := groups;
      posts := [];
      comments := [];
      follows := [];
      nextPostId := 0;
    }

    /** `profile_follow`, by the logged-in `user`, of the user named `username`. */
    method ProfileFollow(user: UserName, username: UserName) returns (r: Response)
      requires Valid() && user in users
      modifies this
      ensures Valid()
      ensures username !in users ==> r == NotFound && follows == old(follows)
      ensures username in users ==>
        r == Redirect(ProfilePage(username)) && follows == FollowRows(old(follows), user, username)
      ensures users == old(users) && groups == old(groups) && posts == old(posts)
      ensures comments == old(comments) && nextPostId == old(nextPostId)
    {
      if username !in users {
        return NotFound;
      }
      var author := username;
      if author != user {
        var followingList := GetFollowingList(follows, user);
        if author !in followingList {
          NewFollowKeepsConstraints(Snapshot(), Follow(user, author));
          follows := follows + [Follow(user, author)];
        }
      }
      return Redirect(ProfilePage(username));
    }

    /** `profile_unfollow`, by the logged-in `user`, of the user named `username`. */
    method ProfileUnfollow(user: UserName, username: UserName) returns (r: Response)
      requires Valid() && user in users
      modifies this
      ensures Valid()
      ensures username !in users ==> r == NotFound && follows == old(follows)
      ensures username in users ==>
        r == Redirect(ProfilePage(username)) && follows == UnfollowRows(old(follows), user, username)
      ensures users == old(users) && groups == old(groups) && posts == old(posts)
      ensures comments == old(comments) && nextPostId == old(nextPostId)
    {
      if username !in users {
        return NotFound;
      }
      var author := username;
      if author != user {
        var followingList := GetFollowingList(follows, user);
        if author in followingList {
          WithoutOne(follows, Follow(user, author));
          follows := Without(follows, Follow(user, author));
        }
      }
      return Redirect(ProfilePage(username));
    }

    /** `create_post` by the logged-in `user`; `valid` is the form's verdict and
      `now` the save time. */
    method CreatePost(user: UserName, request: HttpMethod, form: PostFormData, valid: bool, now: int)
      returns (r: Response)
      requires Valid() && user in users
      modifies this
      ensures Valid()
      ensures request == PostRequest && valid ==>
        && r == Redirect(ProfilePage(user))
        && posts == old(posts) + [NewPost(old(nextPostId), user, form, now)]
        && nextPostId == old(nextPostId) + 1
      ensures !(request == PostRequest && valid) ==>
        r == PostFormPage(false) && posts == old(posts) && nextPostId == old(nextPostId)
      ensures users == old(users) && groups == old(groups)
      ensures comments == old(comments) && follows == old(follows)
    {
      if request == PostRequest {
        if valid {
          var post := NewPost(nextPostId, user, form, now);
          AppendKeepsKeys(posts, post);
          posts := posts + [post];
          nextPostId := nextPostId + 1;
          return Redirect(ProfilePage(user));
        }
        return PostFormPage(false);
      }
      return PostFormPage(false);
    }

    /** `post_edit` of post `pk` by the logged-in `user`. */
    method PostEdit(user: UserName, pk: nat, request: HttpMethod, form: PostFormData, valid: bool)
      returns (r: Response)
      requires Valid() && user in users
      modifies this
      ensures Valid()
      ensures match FindPost(old(posts), pk)
        case None => r == NotFound && posts == old(posts)
        case Some(i) =>
          if user != old(posts)[i].author then
            r == Redirect(PostDetailPage(pk)) && posts == old(posts)
          else if request == PostRequest && valid then
            r == Redirect(PostDetailPage(pk)) && posts == old(posts)[i := EditedPost(old(posts)[i], form)]
          else
            r == PostFormPage(true) && posts == old(posts)
      ensures |posts| == |old(posts)|
      ensures users == old(users) && groups == old(groups) && nextPostId == old(nextPostId)
      ensures comments == old(comments) && follows == old(follows)
    {
      var found := FindPost(posts, pk);
      if found.None? {
        return NotFound;
      }
      var i := found.value;
      var post := posts[i];
      if user == post.author {
        if request == PostRequest {
          if valid {
            EditKeepsKeys(posts, i, EditedPost(post, form));
            posts := posts[i := EditedPost(post, form)];
            return Redirect(PostDetailPage(pk));
          }
        }
        return PostFormPage(true);
      }
      return Redirect(PostDetailPage(pk));
    }

    /** `add_comment` to post `pk` by the logged-in `user`; `valid` is the form's
      verdict and `now` the save time. */
    method AddComment(user: UserName, pk: nat, form: CommentFormData, valid: bool, now: int)
      returns (r: Response)
      requires Valid() && user in users
      modifies this
      ensures Valid()
      ensures valid && !HasPost(old(posts), pk) ==> r == NotFound && comments == old(comments)
      ensures valid && HasPost(old(posts), pk) ==>
        r == Redirect(PostDetailPage(pk)) && comments == old(comments) + [Comment(pk, user, form.text, now)]
      ensures !valid ==> r == Redirect(PostDetailPage(pk)) && comments == old(comments)
      ensures users == old(users) && groups == old(groups) && posts == old(posts)
      ensures follows == old(follows) && nextPostId == old(nextPostId)
    {
      if valid {
        var found := FindPost(posts, pk);
        if found.None? {
          return NotFound;
        }
        comments := comments + [Comment(pk, user, form.text, now)];
      }
      return Redirect(PostDetailPage(pk));
    }
  }

  /** A new follow row between existing users, for a pair not yet present, keeps
      the tables' constraints. */
  lemma NewFollowKeepsConstraints(db: Db, f: Follow)
    requires Constraints(db) && f !in db.follows
    requires f.user in db.users && f.author in db.users
    ensures Constraints(db.(follows := db.follows + [f]))
  {
  }

  /** Adding a post keeps every key present. */
  lemma AppendKeepsKeys(posts: seq<Post>, post: Post)
    ensures forall id :: HasPost(posts, id) ==> HasPost(posts + [post], id)
  {
    forall id | HasPost(posts, id) ensures HasPost(posts + [post], id) {
      var k :| 0 <= k < |posts| && posts[k].id == id;
      assert (posts + [post])[k].id == id;
    }
  }

  /** Replacing a post by one with the same key keeps every key present. */
  lemma EditKeepsKeys(posts: seq<Post>, i: nat, edited: Post)
    requires i < |posts| && edited.id == posts[i].id
    ensures forall id :: HasPost(posts, id) ==> HasPost(posts[i := edited], id)
  {
    forall id | HasPost(posts, id) ensures HasPost(posts[i := edited], id) {
      var k :| 0 <= k < |posts| && posts[k].id == id;
      assert posts[i := edited][k].id == id;
    }
  }
}
