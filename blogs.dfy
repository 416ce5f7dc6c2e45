/**
 The request handlers of the `blogs` blueprint, over an in-memory store that
 stands in for the `blogs` and `comments` tables. Each handler is a method of
 the store; what the handler renders, flashes or redirects to is returned as
 a `Response` value.
 */
module Blogs {
  import opened PyStr
  import opened Models

  /** A flashed notice: its category ("error", "success" or Flask's default "message") and text. */
  datatype Flash = Flash(category: string, message: string)

  /** What a handler hands back to the client. */
  datatype Response =
    | NotFound                                            // get_or_404 missed
    | FormPage(flashes: seq<Flash>, draft: Draft)          // a form rendered with these values
    | DetailPage(blog: Blog, comments: seq<Comment>)       // blogs/detail.html
    | ListPage(ids: seq<int>)                              // blogs/index.html, in display order
    | RedirectDetail(blogId: int, flashes: seq<Flash>)     // redirect to the blog's detail page
    | RedirectIndex(flashes: seq<Flash>)                   // redirect to the list
    | AiCommentJson(success: bool, body: string, userName: string)

  const UpdatedMessage := "投稿を更新しました！"
  const DeletedMessage := "投稿を削除しました。"
  const CommentRequiredMessage := "コメント本文と名前は必須です。"
  const CommentAddedMessage := "コメントを追加しました！"
  const AiUserName := "AI Bot"

  /**
   Each validation message flashed with the "error" category, in order: the
   specification of the flashing loop `FlashErrors`.
   */
  function ErrorFlashes(messages: seq<string>): seq<Flash> {
    seq(|messages|, i requires 0 <= i < |messages| => Flash("error", messages[i]))
  }

  /** `for e in errors: flash(e, 'error')`: the notices queued for the next page. */
  method FlashErrors(messages: seq<string>) returns (flashes: seq<Flash>)
    ensures flashes == ErrorFlashes(messages)
  {
    flashes := [];
    for k := 0 to |messages|
      invariant |flashes| == k
      invariant forall i :: 0 <= i < k ==> flashes[i] == Flash("error", messages[i])
    {
      flashes := flashes + [Flash("error", messages[k])];
    }
  }

  /**
   Python's `not v` on a form value: absent or the empty string (no stripping).
   Every empty value is blank in the sense of `validate`, not the other way round.
   */
  function IsEmpty(v: Option<string>): (r: bool)
    ensures r ==> IsBlank(v)
    ensures !r <==> v.Some? && |v.value| > 0
  {
    v.None? || v.value == []
  }

  /** A whitespace-only value passes the comment guard although `validate` would call it blank. */
  lemma CommentGuardAdmitsWhitespace()
    ensures !IsEmpty(Some(" ")) && IsBlank(Some(" "))
  {
    assert AllSpace(" ");
    IsBlankIffNoText(Some(" "));
  }

  /** The comments of one blog (the `Blog.comments` relationship); order: `CommentsOfAppend`. */
  function CommentsOf(cs: seq<Comment>, blogId: int): (r: seq<Comment>)
    ensures |r| <= |cs|
    ensures forall c <- r :: c in cs && c.blogId == blogId
    ensures forall c <- cs :: c.blogId == blogId ==> c in r
  {
    if cs == [] then []
    else if cs[0].blogId == blogId then [cs[0]] + CommentsOf(cs[1..], blogId)
    else CommentsOf(cs[1..], blogId)
  }

  /** The comments left after the cascade removes those of one blog; order: `RemoveCommentsOfAppend`. */
  function RemoveCommentsOf(cs: seq<Comment>, blogId: int): (r: seq<Comment>)
    ensures |r| <= |cs|
    ensures forall c <- r :: c in cs && c.blogId != blogId
    ensures forall c <- cs :: c.blogId != blogId ==> c in r
  {
    if cs == [] then []
    else if cs[0].blogId == blogId then RemoveCommentsOf(cs[1..], blogId)
    else [cs[0]] + RemoveCommentsOf(cs[1..], blogId)
  }

  /** Each stored comment of the blog appears in its list as often as it is stored, and no other does. */
  lemma {:induction false} CommentsOfCounts(cs: seq<Comment>, blogId: int)
    ensures forall c :: multiset(CommentsOf(cs, blogId))[c] == if c.blogId == blogId then multiset(cs)[c] else 0
  {
    if cs != [] {
      CommentsOfCounts(cs[1..], blogId);
      assert cs == [cs[0]] + cs[1..];
    }
  }

  /** The cascade keeps every other blog's comment as often as it is stored, and none of the blog's. */
  lemma {:induction false} RemoveCommentsOfCounts(cs: seq<Comment>, blogId: int)
    ensures forall c :: multiset(RemoveCommentsOf(cs, blogId))[c] == if c.blogId != blogId then multiset(cs)[c] else 0
  {
    if cs != [] {
      RemoveCommentsOfCounts(cs[1..], blogId);
      assert cs == [cs[0]] + cs[1..];
    }
  }

  /** Stored order is kept: the comments of a concatenation are the comments of each part, in turn. */
  lemma {:induction false} CommentsOfAppend(xs: seq<Comment>, ys: seq<Comment>, blogId: int)
    ensures CommentsOf(xs + ys, blogId) == CommentsOf(xs, blogId) + CommentsOf(ys, blogId)
  {
    if xs != [] {
      assert (xs + ys)[1..] == xs[1..] + ys;
      CommentsOfAppend(xs[1..], ys, blogId);
    } else {
      assert xs + ys == ys;
    }
  }

  /** Stored order is kept: the cascade on a concatenation is the cascade on each part, in turn. */
  lemma {:induction false} RemoveCommentsOfAppend(xs: seq<Comment>, ys: seq<Comment>, blogId: int)
    ensures RemoveCommentsOf(xs + ys, blogId) == RemoveCommentsOf(xs, blogId) + RemoveCommentsOf(ys, blogId)
  {
    if xs != [] {
      assert (xs + ys)[1..] == xs[1..] + ys;
      RemoveCommentsOfAppend(xs[1..], ys, blogId);
    } else {
      assert xs + ys == ys;
    }
  }

  /** The cascade removes exactly the blog's own comments: the two parts add up to the whole. */
  lemma {:induction false} CascadeRemovesExactlyTheBlogsComments(cs: seq<Comment>, blogId: int)
    ensures multiset(RemoveCommentsOf(cs, blogId)) + multiset(CommentsOf(cs, blogId)) == multiset(cs)
    ensures |RemoveCommentsOf(cs, blogId)| + |CommentsOf(cs, blogId)| == |cs|
  {
    if cs != [] {
      CascadeRemovesExactlyTheBlogsComments(cs[1..], blogId);
      assert cs == [cs[0]] + cs[1..];
    }
  }

  /** No two comments share a primary key. */
  predicate DistinctIds(cs: seq<Comment>) {
    forall i, j :: 0 <= i < j < |cs| ==> cs[i].id != cs[j].id
  }

  lemma {:induction false} RemoveCommentsOfKeepsDistinctIds(cs: seq<Comment>, blogId: int)
    requires DistinctIds(cs)
    ensures DistinctIds(RemoveCommentsOf(cs, blogId))
  {
    if cs != [] {
      RemoveCommentsOfKeepsDistinctIds(cs[1..], blogId);
      var rest := RemoveCommentsOf(cs[1..], blogId);
      if cs[0].blogId != blogId {
        forall c <- rest ensures c.id != cs[0].id {
          var k :| 0 <= k < |cs[1..]| && cs[1..][k] == c;
          assert cs[k + 1] == c;
        }
        var r := [cs[0]] + rest;
        forall i, j | 0 <= i < j < |r| ensures r[i].id != r[j].id {
          if i > 0 {
            assert r[i] == rest[i - 1] && r[j] == rest[j - 1];
          } else {
            assert r[j] in rest;
          }
        }
      }
    }
  }

  function CommentIds(cs: seq<Comment>): set<int> {
    set c <- cs :: c.id
  }

  /** `ids` lists stored blogs, newest first (`order_by(created_at.desc())`). */
  ghost predicate NewestFirst(ids: seq<int>, blogs: map<int, Blog>) {
    && (forall i :: 0 <= i < |ids| ==> ids[i] in blogs)
    && (forall i, j :: 0 <= i < j < |ids| ==> blogs[ids[i]].createdAt >= blogs[ids[j]].createdAt)
  }

  /** Places `id` in a newest-first list before the first blog created strictly earlier. */
  function InsertNewestFirst(ids: seq<int>, id: int, blogs: map<int, Blog>): (r: seq<int>)
    requires id in blogs && forall i :: 0 <= i < |ids| ==> ids[i] in blogs
    ensures |r| == |ids| + 1
    ensures forall x <- r :: x == id || x in ids
  {
    if ids == [] || blogs[id].createdAt >= blogs[ids[0]].createdAt then
      [id] + ids
    else
      [ids[0]] + InsertNewestFirst(ids[1..], id, blogs)
  }

  /** Inserting adds exactly the one id. */
  lemma {:induction false} InsertNewestFirstAddsOne(ids: seq<int>, id: int, blogs: map<int, Blog>)
    requires id in blogs && forall i :: 0 <= i < |ids| ==> ids[i] in blogs
    ensures multiset(InsertNewestFirst(ids, id, blogs)) == multiset(ids) + multiset{id}
  {
    if ids != [] && blogs[id].createdAt < blogs[ids[0]].createdAt {
      assert ids == [ids[0]] + ids[1..];
      InsertNewestFirstAddsOne(ids[1..], id, blogs);
    }
  }

  /** Inserting keeps a newest-first list newest first. */
  lemma {:induction false} InsertNewestFirstSorted(ids: seq<int>, id: int, blogs: map<int, Blog>)
    requires id in blogs && NewestFirst(ids, blogs)
    ensures NewestFirst(InsertNewestFirst(ids, id, blogs), blogs)
  {
    if ids != [] && blogs[id].createdAt < blogs[ids[0]].createdAt {
      var tail := ids[1..];
      InsertNewestFirstSorted(tail, id, blogs);
      var rest := InsertNewestFirst(tail, id, blogs);
      forall k | 0 <= k < |rest|
        ensures blogs[ids[0]].createdAt >= blogs[rest[k]].createdAt
      {
        assert rest[k] in rest;
        if rest[k] != id {
          var m :| 0 <= m < |tail| && tail[m] == rest[k];
          assert ids[m + 1] == rest[k];
        }
      }
      var r := [ids[0]] + rest;
      forall i, j | 0 <= i < j < |r|
        ensures blogs[r[i]].createdAt >= blogs[r[j]].createdAt
      {
        if i > 0 {
          assert r[i] == rest[i - 1] && r[j] == rest[j - 1];
        }
      }
    }
  }

  /** No two stored blogs were created at the same instant. */
  ghost predicate DistinctCreationTimes(blogs: map<int, Blog>) {
    forall a, b :: a in blogs && b in blogs && a != b ==> blogs[a].createdAt != blogs[b].createdAt
  }

  /** Two newest-first listings of the same ids start with the same blog when creation times differ. */
  lemma SameNewest(xs: seq<int>, ys: seq<int>, blogs: map<int, Blog>)
    requires NewestFirst(xs, blogs) && NewestFirst(ys, blogs)
    requires multiset(xs) == multiset(ys) && xs != []
    requires DistinctCreationTimes(blogs)
    ensures ys != [] && xs[0] == ys[0]
  {
    assert xs[0] in multiset(ys);
    var k :| 0 <= k < |ys| && ys[k] == xs[0];
    assert ys[0] in multiset(xs);
    var m :| 0 <= m < |xs| && xs[m] == ys[0];
    // each head is at least as new as the other, so they are the same blog
    assert blogs[xs[0]].createdAt >= blogs[xs[m]].createdAt;
    assert blogs[ys[0]].createdAt >= blogs[ys[k]].createdAt;
  }

  /** Removing the same first id from two orderings of the same ids leaves the same ids. */
  lemma SameTailIds(xs: seq<int>, ys: seq<int>)
    requires multiset(xs) == multiset(ys) && xs != [] && ys != [] && xs[0] == ys[0]
    ensures multiset(xs[1..]) == multiset(ys[1..])
  {
    assert xs == [xs[0]] + xs[1..] && ys == [ys[0]] + ys[1..];
    assert multiset(xs[1..]) == multiset(xs) - multiset{xs[0]};
    assert multiset(ys[1..]) == multiset(ys) - multiset{ys[0]};
  }

  /**
   When no two blogs share a creation time there is only one newest-first listing
   of a given collection of ids, so the list page's order is fully determined.
   */
  lemma {:induction false} NewestFirstUnique(xs: seq<int>, ys: seq<int>, blogs: map<int, Blog>)
    requires NewestFirst(xs, blogs) && NewestFirst(ys, blogs)
    requires multiset(xs) == multiset(ys)
    requires DistinctCreationTimes(blogs)
    ensures xs == ys
  {
    if xs != [] {
      SameNewest(xs, ys, blogs);
      SameTailIds(xs, ys);
      NewestFirstUnique(xs[1..], ys[1..], blogs);
    } else {
      assert |ys| == |multiset(ys)| == 0;
    }
  }

  /** A non-empty set of ids has a member to pick. */
  lemma NonEmptyHasMember(s: set<int>)
    requires s != {}
    ensures exists x :: x in s
  {
    if forall x :: x !in s {
      assert false;
    }
  }

  /** The persisted tables, with the id generators of their primary keys. */
  class Store {
    var blogs: map<int, Blog>
    var comments: seq<Comment>
    var nextBlogId: int
    var nextCommentId: int

    /**
     Every stored blog meets the field rules (so `validate` accepts it) and has an
     id below the generator;
     every comment belongs to a stored blog (no orphans, thanks to the cascade)
     and has its own id below the generator.
     */
    ghost predicate Valid()
      reads this
    {
      && (forall id :: id in blogs ==> id < nextBlogId && Acceptable(blogs[id].AsDraft()))
      && (forall c <- comments :: c.blogId in blogs && c.id < nextCommentId)
      && DistinctIds(comments)
    }

    constructor ()
      ensures Valid()
      ensures blogs == map[] && comments == []
    {
      blogs := map[];
      comments := [];
      nextBlogId := 1;
      nextCommentId := 1;
    }

    /** `index`: every blog exactly once, newest first. */
    method Index() returns (r: Response)
      ensures r.ListPage?
      ensures multiset(r.ids) == multiset(blogs.Keys)
      ensures NewestFirst(r.ids, blogs)
    {
      var ids: seq<int> := [];
      var remaining := blogs.Keys;
      while remaining != {}
        invariant remaining <= blogs.Keys
        invariant multiset(ids) == multiset(blogs.Keys - remaining)
        invariant NewestFirst(ids, blogs)
        decreases remaining
      {
        NonEmptyHasMember(remaining);
        var id :| id in remaining;
        InsertNewestFirstAddsOne(ids, id, blogs);
        InsertNewestFirstSorted(ids, id, blogs);
        ids := InsertNewestFirst(ids, id, blogs);
        assert blogs.Keys - (remaining - {id}) == (blogs.Keys - remaining) + {id};
        remaining := remaining - {id};
      }
      assert blogs.Keys - remaining == blogs.Keys;
      r := ListPage(ids);
    }

    /** `create` (POST): insert the blog only when `validate` finds nothing. */
    method Create(title: string, body: string, userName: string, now: int) returns (r: Response)
      requires Valid()
      modifies this
      ensures Valid()
      ensures var d := Draft(Some(title), Some(body), Some(userName));
        if Validate(d) == [] then
          && r.RedirectDetail? && r.flashes == []
          && r.blogId !in old(blogs)
          && blogs == old(blogs)[r.blogId := Blog(title, body, userName, now)]
          && comments == old(comments)
          && nextBlogId == old(nextBlogId) + 1 && nextCommentId == old(nextCommentId)
        else
          && r == FormPage(ErrorFlashes(Messages(Validate(d))), d)
          && unchanged(this)
    {
      var candidate := Draft(Some(title), Some(body), Some(userName));
      var errors := Validate(candidate);
      if errors != [] {
        var flashes := FlashErrors(Messages(errors));
        return FormPage(flashes, candidate);
      }
      var id := nextBlogId;
      blogs := blogs[id := Blog(title, body, userName, now)];
      nextBlogId := nextBlogId + 1;
      r := RedirectDetail(id, []);
    }

    /** `detail`: the blog with its comments, or not-found. */
    method Detail(id: int) returns (r: Response)
      ensures id !in blogs ==> r == NotFound
      ensures id in blogs ==> r.DetailPage? && r.blog == blogs[id]
      ensures id in blogs ==> r.comments == CommentsOf(comments, id)
    {
      if id !in blogs {
        return NotFound;
      }
      r := DetailPage(blogs[id], CommentsOf(comments, id));
    }

    /** `edit` (GET): the edit form filled with the stored values, or not-found. */
    method EditForm(id: int) returns (r: Response)
      ensures id !in blogs ==> r == NotFound
      ensures id in blogs ==> r == FormPage([], Draft(Some(blogs[id].title), Some(blogs[id].body), Some(blogs[id].userName)))
    {
      if id !in blogs {
        return NotFound;
      }
      r := FormPage([], blogs[id].AsDraft());
    }

    /**
     `edit` (POST): the fields are overwritten with the form values first (a missing
     key gives `None`), then validated; only a valid edit is committed. A rejected
     edit shows the overwritten values while the stored row stays as it was.
     */
    method Edit(id: int, title: Option<string>, body: Option<string>, userName: Option<string>) returns (r: Response)
      requires Valid()
      modifies this
      ensures Valid()
      ensures id !in old(blogs) ==> r == NotFound && unchanged(this)
      ensures id in old(blogs) ==>
        var d := Draft(title, body, userName);
        if Validate(d) == [] then
          && r == RedirectDetail(id, [Flash("success", UpdatedMessage)])
          && blogs == old(blogs)[id := Blog(title.value, body.value, userName.value, old(blogs)[id].createdAt)]
          && comments == old(comments)
          && nextBlogId == old(nextBlogId) && nextCommentId == old(nextCommentId)
        else
          && r == FormPage(ErrorFlashes(Messages(Validate(d))), d)
          && unchanged(this)
    {
      if id !in blogs {
        return NotFound;
      }
      var edited := Draft(title, body, userName);
      var errors := Validate(edited);
      if errors != [] {
        var flashes := FlashErrors(Messages(errors));
        return FormPage(flashes, edited);
      }
      blogs := blogs[id := Blog(title.value, body.value, userName.value, blogs[id].createdAt)];
      r := RedirectDetail(id, [Flash("success", UpdatedMessage)]);
    }

    /** `delete`: remove the blog and, by the cascade, every comment of it. */
    method Delete(id: int) returns (r: Response)
      requires Valid()
      modifies this
      ensures Valid()
      ensures id !in old(blogs) ==> r == NotFound && unchanged(this)
      ensures id in old(blogs) ==>
        && r == RedirectIndex([Flash("success", DeletedMessage)])
        && blogs == old(blogs) - {id}
        && comments == RemoveCommentsOf(old(comments), id)
        && nextBlogId == old(nextBlogId) && nextCommentId == old(nextCommentId)
    {
      if id !in blogs {
        return NotFound;
      }
      RemoveCommentsOfKeepsDistinctIds(comments, id);
      blogs := blogs - {id};
      comments := RemoveCommentsOf(comments, id);
      r := RedirectIndex([Flash("success", DeletedMessage)]);
    }

    /** `add_comment`: both form values must be non-empty; no other check is made. */
    method AddComment(id: int, body: Option<string>, userName: Option<string>, now: int) returns (r: Response)
      requires Valid()
      modifies this
      ensures Valid()
      ensures id !in old(blogs) ==> r == NotFound && unchanged(this)
      ensures id in old(blogs) && (IsEmpty(body) || IsEmpty(userName)) ==>
        && r == RedirectDetail(id, [Flash("error", CommentRequiredMessage)])
        && unchanged(this)
      ensures id in old(blogs) && !IsEmpty(body) && !IsEmpty(userName) ==>
        && r == RedirectDetail(id, [Flash("message", CommentAddedMessage)])
        && old(nextCommentId) !in CommentIds(old(comments))
        && comments == old(comments) + [Comment(old(nextCommentId), id, body.value, userName.value, now)]
        && blogs == old(blogs)
        && nextBlogId == old(nextBlogId) && nextCommentId == old(nextCommentId) + 1
    {
      if id !in blogs {
        return NotFound;
      }
      if IsEmpty(body) || IsEmpty(userName) {
        return RedirectDetail(id, [Flash("error", CommentRequiredMessage)]);
      }
      AppendComment(Comment(nextCommentId, id, body.value, userName.value, now));
      r := RedirectDetail(id, [Flash("message", CommentAddedMessage)]);
    }

    /**
     `ai_comment`: the text the generator produces from the blog's title and body
     is stored, unchecked, as a comment by "AI Bot" and echoed back.
     */
    method AiComment(id: int, generate: (string, string) -> string, now: int) returns (r: Response)
      requires Valid()
      modifies this
      ensures Valid()
      ensures id !in old(blogs) ==> r == NotFound && unchanged(this)
      ensures id in old(blogs) ==>
        var text := generate(old(blogs)[id].title, old(blogs)[id].body);
        && r == AiCommentJson(true, text, AiUserName)
        && old(nextCommentId) !in CommentIds(old(comments))
        && comments == old(comments) + [Comment(old(nextCommentId), id, text, AiUserName, now)]
        && blogs == old(blogs)
        && nextBlogId == old(nextBlogId) && nextCommentId == old(nextCommentId) + 1
    {
      if id !in blogs {
        return NotFound;
      }
      var blog := blogs[id];
      var text := generate(blog.title, blog.body);
      AppendComment(Comment(nextCommentId, id, text, AiUserName, now));
      r := AiCommentJson(true, text, AiUserName);
    }

    /** `db.session.add(comment)` followed by a commit, for a comment on a stored blog. */
    method AppendComment(c: Comment)
      requires Valid() && c.blogId in blogs && c.id == nextCommentId
      modifies this
      ensures Valid()
      ensures c.id !in CommentIds(old(comments))
      ensures comments == old(comments) + [c] && nextCommentId == old(nextCommentId) + 1
      ensures blogs == old(blogs) && nextBlogId == old(nextBlogId)
    {
      comments := comments + [c];
      nextCommentId := nextCommentId + 1;
    }
  }
}
