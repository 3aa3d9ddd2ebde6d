/** The entities of the posts app (yatube/posts/models.py), the constraints the
    database keeps on their tables, and the orderings the listings use. */
module Models {

  datatype Option<T> = None | Some(value: T)

  /** A user is known by its username, which the authentication framework keeps unique. */
  type UserName = string

  datatype Group = Group(id: nat, title: string, slug: string, description: string)

  /** A post row. `group` is a nullable foreign key to a group's id; `image` is the
      stored file name, "" when the post has none. */
  datatype Post = Post(id: nat, title: string, text: string, pubDate: int,
                       author: UserName, group: Option<nat>, image: string)

  /** A comment row: `post` is the id of the post it belongs to. */
  datatype Comment = Comment(post: nat, author: UserName, text: string, created: int)

  /** A follow row: `user` follows `author`. */
  datatype Follow = Follow(user: UserName, author: UserName)

  /** The tables of the app. */
  datatype Db = Db(users: set<UserName>, groups: seq<Group>, posts: seq<Post>,
                   comments: seq<Comment>, follows: seq<Follow>)

  /** Number of characters of a post's text that `Post.__str__` shows. */
  const StrLength := 15

  /** `Post.__str__`: the text cut to its first 15 characters. */
  function PostStr(p: Post): (r: string)
    ensures r <= p.text
    ensures |r| == if |p.text| < StrLength then |p.text| else StrLength
  {
    if |p.text| <= StrLength then p.text else p.text[..StrLength]
  }

  /** A text of at most 15 characters is shown whole, and no text shows longer. */
  lemma PostStrShortText(p: Post)
    ensures |PostStr(p)| <= StrLength
    ensures |p.text| <= StrLength ==> PostStr(p) == p.text
  {
  }

  /** `Group.__str__`: the group's title. */
  function GroupStr(g: Group): string {
    g.title
  }

  predicate NoDuplicates<T(==)>(s: seq<T>) {
    forall i, j :: 0 <= i < j < |s| ==> s[i] != s[j]
  }

  /** Group titles and slugs are declared unique, and so is the primary key. */
  predicate UniqueGroups(gs: seq<Group>) {
    forall i, j :: 0 <= i < j < |gs| ==>
      gs[i].id != gs[j].id && gs[i].title != gs[j].title && gs[i].slug != gs[j].slug
  }

  /** Since titles are unique, a group's string form tells it apart from every other group. */
  lemma GroupStrIdentifies(gs: seq<Group>, i: nat, j: nat)
    requires UniqueGroups(gs) && i < |gs| && j < |gs|
    requires GroupStr(gs[i]) == GroupStr(gs[j])
    ensures i == j
  {
  }

  predicate HasPost(posts: seq<Post>, id: nat) {
    exists i :: 0 <= i < |posts| && posts[i].id == id
  }

  /** What the database guarantees about its tables: the unique (user, author)
      constraint on follows, unique group titles and slugs, unique primary keys,
      and foreign keys that point at existing users and posts. */
  predicate Constraints(db: Db) {
    && NoDuplicates(db.follows)
    && (forall f :: f in db.follows ==> f.user in db.users && f.author in db.users)
    && UniqueGroups(db.groups)
    && (forall i, j :: 0 <= i < j < |db.posts| ==> db.posts[i].id != db.posts[j].id)
    && (forall p :: p in db.posts ==> p.author in db.users)
    && (forall c :: c in db.comments ==> c.author in db.users && HasPost(db.posts, c.post))
  }

  /** `Model.objects.filter(...)`: the rows that satisfy `keep`, each as often as
      the table holds it. */
  function Where<T(!new)>(s: seq<T>, keep: T -> bool): (r: seq<T>)
    ensures forall x :: x in r <==> x in s && keep(x)
    ensures forall x :: multiset(r)[x] == (if keep(x) then multiset(s)[x] else 0)
    ensures |r| <= |s|
  {
    if s == [] then []
    else
      assert s == [s[0]] + s[1..];
      (if keep(s[0]) then [s[0]] else []) + Where(s[1..], keep)
  }

  /** `Post.objects.filter(author=author)`. */
  function PostsBy(posts: seq<Post>, author: UserName): seq<Post> {
    Where(posts, (p: Post) => p.author == author)
  }

  /** Filtering a table without duplicate rows gives a list without duplicates. */
  lemma {:induction false} WhereNoDuplicates<T(!new)>(s: seq<T>, keep: T -> bool)
    requires NoDuplicates(s)
    ensures NoDuplicates(Where(s, keep))
  {
    if s != [] {
      var rest := Where(s[1..], keep);
      WhereNoDuplicates(s[1..], keep);
      assert s[0] !in s[1..] by {
        forall k | 0 <= k < |s[1..]| ensures s[1..][k] != s[0] {
          assert s[1..][k] == s[k + 1];
        }
      }
      assert s[0] !in rest;
    }
  }

  /** The rows are in descending order of `key`: the newest first. */
  predicate DescendingBy<T>(s: seq<T>, key: T -> int) {
    forall i, j :: 0 <= i < j < |s| ==> key(s[i]) >= key(s[j])
  }

  /** Every row of a permutation of `s[1..]` plus `x` is no newer than `s[0]`,
      when `x` is older than `s[0]` and `s` is in order. */
  lemma RestNoNewer<T>(x: T, s: seq<T>, rest: seq<T>, key: T -> int)
    requires DescendingBy(s, key) && |s| > 0 && key(x) < key(s[0])
    requires multiset(rest) == multiset(s[1..]) + multiset{x}
    ensures forall k :: 0 <= k < |rest| ==> key(rest[k]) <= key(s[0])
  {
    forall k | 0 <= k < |rest| ensures key(rest[k]) <= key(s[0]) {
      assert rest[k] in multiset(rest);
      if rest[k] != x {
        assert rest[k] in s[1..];
      }
    }
  }

  function InsertDesc<T>(x: T, s: seq<T>, key: T -> int): (r: seq<T>)
    requires DescendingBy(s, key)
    ensures DescendingBy(r, key)
    ensures multiset(r) == multiset(s) + multiset{x}
  {
    if s == [] || key(s[0]) <= key(x) then [x] + s
    else
      var rest := InsertDesc(x, s[1..], key);
      assert s == [s[0]] + s[1..];
      RestNoNewer(x, s, rest, key);
      [s[0]] + rest
  }

  /** A `Meta.ordering` on a descending key: the rows sorted newest first. */
  function OrderDesc<T>(s: seq<T>, key: T -> int): (r: seq<T>)
    ensures DescendingBy(r, key)
    ensures multiset(r) == multiset(s)
  {
    if s == [] then []
    else
      assert s == [s[0]] + s[1..];
      InsertDesc(s[0], OrderDesc(s[1..], key), key)
  }

  function PubDate(p: Post): int { p.pubDate }

  function Created(c: Comment): int { c.created }

  /** `Post.Meta.ordering = ('-pub_date',)`: posts newest first. */
  function NewestPosts(posts: seq<Post>): (r: seq<Post>)
    ensures DescendingBy(r, PubDate)
    ensures multiset(r) == multiset(posts)
  {
    OrderDesc(posts, PubDate)
  }

  /** `Comment.Meta.ordering = ('-created',)`: comments newest first. */
  function NewestComments(comments: seq<Comment>): (r: seq<Comment>)
    ensures DescendingBy(r, Created)
    ensures multiset(r) == multiset(comments)
  {
    OrderDesc(comments, Created)
  }

  /** A row whose key is greater than every other row's comes first. */
  lemma NewestComesFirst<T>(s: seq<T>, x: T, key: T -> int)
    requires forall y :: y in s ==> key(y) < key(x)
    ensures |OrderDesc(s + [x], key)| > 0 && OrderDesc(s + [x], key)[0] == x
  {
    var r := OrderDesc(s + [x], key);
    assert x in multiset(s + [x]);
    assert x in r;
    var j :| 0 <= j < |r| && r[j] == x;
    assert key(r[0]) >= key(x);
    assert r[0] in multiset(s + [x]);
  }

  /** A post published after every existing one heads the post listing. */
  lemma LatestPostFirst(posts: seq<Post>, p: Post)
    requires forall q :: q in posts ==> q.pubDate < p.pubDate
    ensures |NewestPosts(posts + [p])| > 0 && NewestPosts(posts + [p])[0] == p
  {
    NewestComesFirst(posts, p, PubDate);
  }
}
