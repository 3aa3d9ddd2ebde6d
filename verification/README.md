# yatube posts app — follow relation and author-scoped operations

A Dafny model of the posts app of yatube, a small blogging site: users write
posts (optionally in a group), comment on posts, and follow other authors to
get a personal feed. The model abstracts the database as tables held in a
`Site` object — a set of usernames, a sequence of groups, a sequence of posts,
a sequence of comments and a sequence of follow rows — and models the request
handlers over them:

- `profile_follow` / `profile_unfollow`, a guarded state machine over the
  follow rows: a follow creates the row (user, author) only for another user
  not yet followed; an unfollow deletes it only for another user that is
  followed. The database's unique (user, author) constraint is part of the
  class invariant `Site.Valid` and both handlers, run one request at a time,
  keep it.
- `get_following_list`, the loop that collects the authors of a user's follow
  rows, proved equal to its specification function and shown to list exactly
  the followed authors, without duplicates, one per row.
- `follow_index`, `profile`, `index`, `group_posts` and `post_detail`, the
  read-only listings, as functions of a snapshot of the tables; the feed holds
  exactly the posts of followed authors and every listing is newest first.
- `create_post`, `post_edit` and `add_comment`: who may change what (only a
  post's author may edit it; new posts and comments get the requesting user as
  author) and what stays unchanged.
- `Post.__str__` (the text cut to 15 characters) and `Group.__str__` (the title).

Modules follow the source files: `Models` (models.dfy) for yatube/posts/models.py,
`Utils` (utils.dfy) for yatube/posts/utils.py, `Views` (views.dfy) for
yatube/posts/views.py.

Modelling choices:
- A user is identified by its username, which the authentication framework
  keeps unique; `get_object_or_404(User, username=...)` is membership in `users`.
- The follow table is a sequence of rows, so that `get_following_list` has an
  order to return its authors in: the follow table declares no ordering, the
  database picks one, and the model takes the order the rows are held in. The
  set of pairs the rows stand for is `Views.Pairs`. A
  follow row's own primary key is not modelled, so two rows are equal exactly
  when their (user, author) pairs are.
- A `Meta.ordering` on a descending timestamp is `Models.OrderDesc`, an
  insertion sort proved to give a permutation of its input in descending order.
  Rows with equal timestamps may come in any order in the source; the model
  picks one.
- Form validation, the clock (`auto_now_add`) and the file names storage gives
  uploads are done by the framework: the handlers take the form's verdict
  (`valid`), the save time (`now`) and the stored image name as parameters.
  The auto-incremented primary key of posts is the field `nextPostId`.
- `@login_required` handlers require a logged-in user (`user in users`);
  `profile`, which also serves anonymous visitors, takes `Option<UserName>`.
- A handler's answer is a `Response`: a 404, a redirect to a named page, or the
  post form page.

## Model

| member | source | states |
|---|---|---|
| Models.PostStr | yatube/posts/models.py:66-67 | the result is a prefix of the post's text whose length is the smaller of 15 and the text's length |
| Models.PostStrShortText | yatube/posts/models.py:66-67 | the string form is at most 15 characters long, and a text of at most 15 characters is returned unchanged |
| Models.GroupStrIdentifies | yatube/posts/models.py:12-22 | since group titles are unique, two groups of the table with the same string form are the same row |
| Models.Where | yatube/posts/views.py:93 | a queryset filter keeps exactly the rows satisfying the condition, each as many times as the table holds it, and drops every other row |
| Models.WhereNoDuplicates | yatube/posts/models.py:109-110 | filtering a table without duplicate rows yields no duplicate rows |
| Models.InsertDesc | yatube/posts/models.py:62 | inserting a row into a descending list keeps it descending and adds exactly that row |
| Models.OrderDesc | yatube/posts/models.py:62 | the ordered listing is descending by the key and is a permutation of the table |
| Models.NewestPosts | yatube/posts/models.py:62 | posts are listed by publication date, newest first, each post exactly as often as in the table |
| Models.NewestComments | yatube/posts/models.py:89 | comments are listed by creation time, newest first, each comment exactly as often as in the table |
| Models.NewestComesFirst | yatube/posts/models.py:62 | a row with a key greater than every other row's is first in the ordered listing |
| Models.LatestPostFirst | yatube/posts/tests/test_views.py:184-189 | a post published after all others heads the post listing |
| Utils.GetFollowingList | yatube/posts/utils.py:13-18 | the loop returns the author of every follow row of the user, in the order the rows are held, and an author is in it exactly when the user has a follow row for that author |
| Utils.FollowedAuthorsMembership | yatube/posts/utils.py:14-17 | an author is in the following list if and only if the table has the row (user, author); no author of another user's rows appears |
| Utils.FollowedAuthorsNoDuplicates | yatube/posts/utils.py:16-17 | under the unique (user, author) constraint the following list has no duplicate authors |
| Utils.FollowedAuthorsCount | yatube/posts/utils.py:14-17 | the list is as long as the user's follow rows and, under the unique constraint, as the set of distinct authors the user follows |
| Views.FindPost | yatube/posts/views.py:64 | the post lookup finds a post with the key exactly when one exists, and answers 404 otherwise |
| Views.FindGroup | yatube/posts/views.py:17 | the group lookup finds a group of the table with the slug exactly when one exists |
| Views.Without | yatube/posts/views.py:116-118 | deleting a follow row keeps exactly the other rows |
| Views.WithoutOne | yatube/posts/views.py:116-118 | under the unique constraint, deleting a present row removes exactly one row, and the rows stay unique |
| Views.WithoutAbsent | yatube/posts/views.py:115-118 | deleting a row that is not present leaves the table as it was |
| Views.FollowEffect | yatube/posts/views.py:102-106 | following another user adds exactly the pair (user, author); following oneself or an already followed user changes nothing; no other pair changes |
| Views.FollowIdempotent | yatube/posts/views.py:103-106 | following the same author twice leaves the same table as following once |
| Views.FollowKeepsConstraints | yatube/posts/views.py:102-106 | a follow never creates a self-follow and keeps the (user, author) rows unique |
| Views.UnfollowEffect | yatube/posts/views.py:113-118 | unfollowing another user removes the pair if present (one row fewer) and is a no-op otherwise; unfollowing oneself is a no-op; rows stay unique |
| Views.FollowThenUnfollow | yatube/posts/views.py:99-119 | unfollowing right after a follow that created a row restores the table exactly |
| Views.WithoutAppend | yatube/posts/views.py:116-118 | deleting the row just appended gives what deleting it before the append gives |
| Views.UnfollowThenFollow | yatube/posts/views.py:99-119 | following again right after unfollowing restores the same set of pairs |
| Views.Index | yatube/posts/views.py:9-13 | the index lists every post, newest first |
| Views.GroupPosts | yatube/posts/views.py:16-21 | 404 exactly when no group has the slug; otherwise that group and exactly its posts, each as often as stored, newest first |
| Views.Profile | yatube/posts/views.py:24-34 | 404 exactly for an unknown username; otherwise exactly the author's posts, each as often as stored, newest first, their count, and a following flag that is set if and only if the viewer is logged in and follows the author |
| Views.PostDetail | yatube/posts/views.py:37-45 | 404 exactly for an unknown key; otherwise the post, exactly its comments (each as often as stored) newest first, and the number of posts of its author |
| Views.FollowIndex | yatube/posts/views.py:90-96 | the feed holds exactly the posts whose author the user follows, each as often as stored, newest first |
| Views.FollowShowsPosts | yatube/posts/tests/test_views.py:223-240 | after following another user, every post of that user is in the feed |
| Views.UnfollowHidesPosts | yatube/posts/views.py:110-119 | after unfollowing another user, no post of that user is in the feed |
| Views.SelfFollowShowsNothing | yatube/posts/tests/test_views.py:242-250 | an attempt to follow oneself does not put one's own posts in one's feed |
| Views.EditedPost | yatube/posts/views.py:67-70 | saving the edit form sets the text and group to the form's, sets the image to the upload or keeps the current one, and keeps the post's key, title, author and publication date |
| Views.Site.ProfileFollow | yatube/posts/views.py:99-107 | 404 with no change for an unknown username; otherwise redirect to the author's profile with the follow rows updated as FollowRows says; posts, comments, users and groups unchanged; the unique constraint kept |
| Views.Site.ProfileUnfollow | yatube/posts/views.py:110-119 | 404 with no change for an unknown username; otherwise redirect to the author's profile with the follow rows updated as UnfollowRows says; nothing else changes; the unique constraint kept |
| Views.Site.CreatePost | yatube/posts/views.py:48-59 | a valid submitted form appends exactly one post, authored by the requesting user, and redirects to the user's profile; anything else shows the form and changes nothing |
| Views.Site.PostEdit | yatube/posts/views.py:62-76 | 404 for an unknown key; a non-author is redirected to the post with nothing changed; the author's valid submission replaces only that post by its edited form and redirects to it; otherwise the edit form is shown; the number of posts never changes |
| Views.Site.AddComment | yatube/posts/views.py:79-87 | a valid form on an existing post appends exactly one comment by the requesting user on that post; a valid form on a missing post is a 404; an invalid form changes nothing; the other cases redirect to the post |

## Left out

- Pagination (`add_paginator`, yatube/posts/utils.py:7-10): listings are returned whole; the page size is a setting that is not part of this model.
- The page cache of the index page and template rendering: a `Response` names the page or form instead.
- The redirect of anonymous users to the login page by `@login_required`: the handlers that carry it require a logged-in user.
- Form validation (yatube/posts/forms.py) is the framework's: its verdict is the `valid` parameter. For that reason the model keeps no foreign-key constraint from a post to its group.
- Image upload and file storage: the stored file name is a parameter of the form data.
- The clock and primary-key allocation: `now` is a parameter, post keys come from `nextPostId`.
- Tags and their transliterated slugs (yatube/posts/ru_taggit.py): a call into a foreign slug library.
- Deletion and its cascades: none of the modelled handlers deletes a user, group, post or comment.
- Views.Site.CreatePost: the title of a new post is the empty default the framework gives a character field left out of the form.
- The order of a user's follow rows: the database's, unspecified; the model fixes one.
- Each request is modelled as atomic; two concurrent follows of the same pair both pass the membership test in the source, and the second fails on the unique constraint.
- Rows with equal timestamps: the database may list them in any order; the model fixes one order.
