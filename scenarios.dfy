/**
 Client code: short request sequences against a fresh store, checked from the
 handlers' contracts alone (as a caller of the blueprint would see them).
 */
module Scenarios {
  import opened PyStr
  import opened Models
  import opened Blogs

  /** The sample form values used below pass validation. */
  lemma SampleAccepted()
    ensures Validate(Draft(Some("t"), Some("b"), Some("u"))) == []
  {
  }

  /** The one newest-first listing of three blogs created at times 1, 2 and 3. */
  lemma ThreeBlogsListing(blogs: map<int, Blog>, a: int, b: int, c: int, ids: seq<int>)
    requires blogs == map[a := Blog("t", "b", "u", 1), b := Blog("t", "b", "u", 2), c := Blog("t", "b", "u", 3)]
    requires a != b && b != c && a != c
    requires multiset(ids) == multiset(blogs.Keys) && NewestFirst(ids, blogs)
    ensures ids == [c, b, a]
  {
    assert NewestFirst([c, b, a], blogs);
    assert blogs.Keys == {a, b, c};
    assert multiset([c, b, a]) == multiset(blogs.Keys);
    NewestFirstUnique(ids, [c, b, a], blogs);
  }

  /** Blogs created at times 1 < 2 < 3 are listed in the order 3, 2, 1. */
  method ListingIsNewestFirst() {
    var store := new Store();
    SampleAccepted();
    var r1 := store.Create("t", "b", "u", 1);
    var r2 := store.Create("t", "b", "u", 2);
    var r3 := store.Create("t", "b", "u", 3);
    var a, b, c := r1.blogId, r2.blogId, r3.blogId;
    var page := store.Index();
    ThreeBlogsListing(store.blogs, a, b, c, page.ids);
    assert page.ids == [c, b, a];
  }

  /** Deleting a blog removes its comments and nobody else's; its pages are then not found. */
  method DeleteCascades() {
    var store := new Store();
    SampleAccepted();
    var r1 := store.Create("t", "b", "u", 1);
    var r2 := store.Create("t", "b", "u", 2);
    var gone, kept := r1.blogId, r2.blogId;
    var _ := store.AddComment(gone, Some("c1"), Some("x"), 3);
    var _ := store.AddComment(kept, Some("c2"), Some("y"), 4);
    var keptComment := store.comments[1];
    assert keptComment.blogId == kept;
    var _ := store.Delete(gone);
    assert keptComment in store.comments;
    assert forall c <- store.comments :: c.blogId != gone;
    var shown := store.Detail(gone);
    assert shown == NotFound;
  }

  /** Rejected input changes nothing: a 101-character title, an empty comment body. */
  method RejectedInputIsNotStored() {
    var store := new Store();
    var longTitle := seq(101, _ => 'x');
    var r := store.Create(longTitle, "b", "u", 1);
    assert !IsSpace(longTitle[0]) && !IsSpace("b"[0]) && !IsSpace("u"[0]);
    assert Validate(Draft(Some(longTitle), Some("b"), Some("u"))) == [TitleTooLong];
    assert r.FormPage? && r.flashes == [Flash("error", TitleTooLong.Message())];
    assert store.blogs == map[];

    SampleAccepted();
    var ok := store.Create("t", "b", "u", 2);
    var id := ok.blogId;
    var before := store.comments;
    var rejected := store.AddComment(id, Some(""), Some("u"), 3);
    assert rejected == RedirectDetail(id, [Flash("error", CommentRequiredMessage)]);
    assert store.comments == before;
  }

  /** The generated text is stored as a comment by "AI Bot" on the requested blog and echoed back. */
  method AiCommentStoresGeneratedText() {
    var store := new Store();
    SampleAccepted();
    var r := store.Create("t", "b", "u", 1);
    var id := r.blogId;
    var reply := store.AiComment(id, (title, body) => "T", 2);
    assert reply == AiCommentJson(true, "T", "AI Bot");
    assert |store.comments| == 1;
    assert store.comments[0].blogId == id && store.comments[0].body == "T" && store.comments[0].userName == "AI Bot";
  }
}
