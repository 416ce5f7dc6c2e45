# Blog application core, modelled in Dafny

This project models the business logic of a small Flask blog application: the
field rules of `Blog.validate`, and the persist-or-reject decisions of the
request handlers of the `blogs` blueprint (`index`, `create`, `detail`, `edit`,
`delete`, `add_comment`, `ai_comment`) over the `blogs` and `comments` tables.

- `pystr.dfy` (module `PyStr`): Python's `str.isspace` and `str.strip()` as the
  validator uses them, with the proof that `s.strip() == ""` holds exactly when
  every character of `s` is whitespace.
- `models.dfy` (module `Models`): the `Blog` and `Comment` records, a `Draft`
  (a blog candidate whose fields may be `None`), the five validation errors with
  their exact message texts, and `Validate`, a function in the shape of
  `Blog.validate`: a "required" check per field and, behind an `elif`, the
  length checks for the title (100) and the user name (50).
- `blogs.dfy` (module `Blogs`): a `Store` class holding the `blogs` table as a
  map from id to record and the `comments` table as a sequence, with one method
  per handler. A handler's page, flash notices, redirect or JSON reply is
  returned as a `Response` value. The store keeps an invariant. Every stored blog
  meets the field rules. Every comment belongs to a stored blog. The cascade of
  `delete` keeps that second part true. Primary keys are unique and fresh.
- `scenarios.dfy` (module `Scenarios`): short request sequences checked from
  the handlers' contracts. Blogs created at times 1 < 2 < 3 are listed 3, 2, 1.
  Deleting a blog takes its comments with it and leaves other blogs' comments.
  A 101-character title and an empty comment body are rejected without storing
  anything. An AI comment stores and echoes the generated text under "AI Bot".

Inputs that the application takes from its environment are parameters here:
the creation timestamp (`now`, an integer standing for `datetime.now`), the
form fields, and the text generator behind `ai_comment` (`generate`, an
arbitrary function of the blog's title and body).

## Model

| member | source | states |
|---|---|---|
| `PyStr.IsSpace` | flaskr/models.py:22 | Python's `str.isspace` on one character: the ASCII controls tab through carriage return and the four separators, space, next line, no-break space and the Unicode space separators |
| `PyStr.StripLeading` | flaskr/models.py:22 | `lstrip()`, dropping leading whitespace one character at a time; the result is never longer than the input (its exact shape is `StripLeadingShape`) |
| `PyStr.StripTrailing` | flaskr/models.py:22 | `rstrip()`, dropping trailing whitespace one character at a time; the result is never longer than the input (its exact shape is `StripTrailingShape`) |
| `PyStr.Strip` | flaskr/models.py:22 | `strip()` as `rstrip` after `lstrip`; the result is never longer than the input (its exact shape is `StripShape`) |
| `PyStr.StripShape` | flaskr/models.py:22 | `strip()` keeps one contiguous slice of the input, with only whitespace before and after it, and the slice, when not empty, starts and ends with a non-whitespace character |
| `PyStr.StripLeadingShape` | flaskr/models.py:22 | `lstrip()` removes exactly a whitespace prefix and stops at a non-whitespace character |
| `PyStr.StripTrailingShape` | flaskr/models.py:22 | `rstrip()` removes exactly a whitespace suffix and stops at a non-whitespace character |
| `PyStr.StripLeadingAllSpace` | flaskr/models.py:22 | an all-whitespace string has nothing left after `lstrip()` |
| `PyStr.StripEmptyIffAllSpace` | flaskr/models.py:22 | `s.strip() == ""` if and only if every character of `s` is whitespace (so the empty string counts as blank) |
| `Models.IsBlank` | flaskr/models.py:22-30 | the validator's blank test `not v or v.strip() == ""`, written out literally; its meaning is `IsBlankIffNoText` |
| `Models.IsBlankIffNoText` | flaskr/models.py:22-33 | the validator's blank test `not v or v.strip() == ""` holds exactly when the value is `None` or has no non-whitespace character |
| `Models.TitleErrors` | flaskr/models.py:22-25 | the title contributes at most one message, and it is a title message |
| `Models.BodyErrors` | flaskr/models.py:27-28 | the body contributes at most one message, and it is a body message |
| `Models.UserNameErrors` | flaskr/models.py:30-33 | the user name contributes at most one message, and it is a user-name message |
| `Models.Validate` | flaskr/models.py:19-35 | the result is empty exactly when the title has text and at most 100 characters, the body has text, and the user name has text and at most 50 characters; at most three messages, strictly in field order title, body, user name |
| `Models.ValidateFieldRules` | flaskr/models.py:21-35 | each of the five messages is present exactly under its own rule; a "too long" message needs a non-blank field |
| `Models.BlankTitleOnlyRequired` | flaskr/models.py:22-25 | a missing or whitespace-only title gives "title required" first and never the length message, whatever its length |
| `Models.LongTitleOnlyTooLong` | flaskr/models.py:24-25 | a non-blank title over 100 characters gives "title too long" first and not "title required" |
| `Models.UserNameRules` | flaskr/models.py:30-33 | a blank user name gives only "required" as the last message; a non-blank one over 50 characters gives only "too long" |
| `Models.BodyHasNoLengthLimit` | flaskr/models.py:27-28 | a body with text, of any length, adds no message: the result is the title and user-name messages alone |
| `Models.SpacesTitleExample` | flaskr/models.py:22-25 | a title of 101 spaces with a valid body and name yields exactly `[TitleRequired]` |
| `Models.FieldError.Message` | flaskr/models.py:23-33 | the exact text of each of the five messages |
| `Models.Messages` | flaskr/models.py:19-35 | the list of strings `validate` returns is `Messages(Validate(d))`: the text of each error, in order |
| `Models.MessagesDetermineErrors` | flaskr/models.py:23-33 | two error lists with the same texts are the same list, so the flashed messages identify the errors exactly |
| `Blogs.FlashErrors` | flaskr/blogs.py:30-32 | the loop flashes every message with category "error", in order, one notice per message |
| `Blogs.IsEmpty` | flaskr/blogs.py:102 | Python's `not v` on a form value of `add_comment`: true exactly when the value is `None` or `""`; every empty value is also blank for `validate` |
| `Blogs.CommentGuardAdmitsWhitespace` | flaskr/blogs.py:102 | the comment guard is weaker than `validate`'s blank test: `" "` passes the guard although `validate` would reject it as blank |
| `Blogs.CommentsOf` | flaskr/models.py:14 | a blog's comments are exactly the stored comments whose `blog_id` is that blog |
| `Blogs.RemoveCommentsOf` | flaskr/models.py:14 | after the cascade, a comment is kept exactly when its `blog_id` is not the deleted blog |
| `Blogs.CommentsOfCounts` | flaskr/models.py:14 | each comment of the blog is listed as often as it is stored, and no other comment is listed |
| `Blogs.RemoveCommentsOfCounts` | flaskr/models.py:14 | the cascade keeps each comment of another blog as often as it is stored, and none of the deleted blog's |
| `Blogs.CommentsOfAppend` | flaskr/models.py:14 | a blog's comments keep their stored order: the comments of a concatenation are those of the first part followed by those of the second |
| `Blogs.RemoveCommentsOfAppend` | flaskr/models.py:14 | the cascade keeps the stored order of the comments it keeps |
| `Blogs.CascadeRemovesExactlyTheBlogsComments` | flaskr/blogs.py:83-86 | the comments kept plus the blog's own comments are exactly the stored comments, as a multiset: a blog with N comments loses exactly N |
| `Blogs.RemoveCommentsOfKeepsDistinctIds` | flaskr/models.py:40 | the cascade keeps comment primary keys unique |
| `Blogs.InsertNewestFirst` | flaskr/blogs.py:13 | inserting into the listing adds one element, which is the new id or one of the old ids |
| `Blogs.InsertNewestFirstAddsOne` | flaskr/blogs.py:13 | inserting adds exactly that id to the listing's ids, as a multiset |
| `Blogs.InsertNewestFirstSorted` | flaskr/blogs.py:13 | inserting keeps the listing ordered by `created_at`, newest first |
| `Blogs.SameNewest` | flaskr/blogs.py:13 | two newest-first listings of the same ids start with the same blog when creation times differ |
| `Blogs.NewestFirstUnique` | flaskr/blogs.py:13 | with distinct creation times there is exactly one newest-first listing of a set of blogs |
| `Blogs.Store.Valid` | flaskr/models.py:7-44 | the table invariants: every stored blog passes the field rules and has an id below the key generator; every comment belongs to a stored blog (no orphans) and comment ids are unique and below their generator |
| `Blogs.Store.constructor` | flaskr/models.py:7-44 | the empty tables meet the table invariants |
| `Blogs.Store.Index` | flaskr/blogs.py:12-14 | the list page shows every stored blog exactly once, ordered by `created_at`, non-increasing |
| `Blogs.Store.Create` | flaskr/blogs.py:19-39 | a blog is inserted if and only if `validate` finds nothing: then under a fresh id, with the submitted fields and the given time, with a redirect to that id; otherwise nothing changes and the form is shown again with every message flashed as an error, in order |
| `Blogs.Store.Detail` | flaskr/blogs.py:46-48 | an unknown id gives not-found; a known one gives the blog and exactly its comments |
| `Blogs.Store.EditForm` | flaskr/blogs.py:51-76 | an unknown id gives not-found; a known one gives the form filled with the stored values (the GET branch) |
| `Blogs.Store.Edit` | flaskr/blogs.py:53-74 | an unknown id gives not-found and changes nothing; the form values (possibly `None`) are validated after overwriting; only a valid edit is committed, keeping id and `created_at`, with a success notice; a rejected edit shows the overwritten values and leaves the store unchanged |
| `Blogs.Store.Delete` | flaskr/blogs.py:83-89 | an unknown id gives not-found and changes nothing; otherwise the blog and all its comments are removed, all other blogs and comments stay, and the reply redirects to the list with a success notice |
| `Blogs.Store.AddComment` | flaskr/blogs.py:95-112 | an unknown id gives not-found; a missing or empty body or user name changes nothing and redirects with an error notice; otherwise exactly one comment with those values and a fresh id is appended to that blog; there is no whitespace or length check |
| `Blogs.Store.AiComment` | flaskr/blogs.py:116-147 | an unknown id gives not-found; otherwise exactly one comment by "AI Bot" whose body is the generator's output for the blog's title and body is appended to that blog, and the reply echoes that body and name with success true |
| `Blogs.Store.AppendComment` | flaskr/blogs.py:108-109 | adding a comment of a stored blog appends it under a fresh id and keeps the store invariant |
| `Scenarios.ThreeBlogsListing` | flaskr/blogs.py:13 | three blogs created at times 1, 2, 3 can only be listed in the order 3, 2, 1 |

## Left out

- Routing, templates, `redirect`/`url_for` and `jsonify` are reduced to the `Response` datatype. Flash notices are kept as (category, text) pairs on the response.
- The GET branch of `create` renders an empty form and touches no state. It is not modelled.
- The SQLAlchemy session, its transactions and column declarations are left out. A commit is an assignment to the store's fields. The engine's id generation is a counter that yields an id not yet in use.
- `datetime.now` defaults are left out. The timestamp is a caller-supplied integer. Blogs created at the same instant may be listed in any order between them, as `ORDER BY created_at DESC` leaves ties open.
- The comment's own `created_at` is stored but nothing reads it.
- `Blog.comments` has no `order_by`. The model lists a blog's comments in the order they were stored.
- The Azure OpenAI call, its prompt text, the model name and the `print` of the reply are left out. The generated text is the output of an arbitrary `generate` function of the blog's title and body. A failing call, which leaves the store untouched because nothing is written before it returns, is not modelled.
- `request.form[...]` in `create` raises on a missing key (a framework-level error). The model takes all three create fields as present strings. `edit` uses `request.form.get`, which yields `None` for a missing key, and the model keeps that difference (`Option<string>` there).
- The length limit of `Comment.user_name` (`String(50)`) is a column declaration that the handlers do not check. Whether a longer name is stored or refused at commit depends on the database engine, which is not part of this model. The model stores any non-empty name, as an engine that does not enforce the length (such as SQLite) does.
- A rejected `edit` leaves the in-memory blog object overwritten until the request ends. The model keeps that state only as the `Draft` shown on the form page, never in the store.
- `__repr__` is cosmetic and is not modelled.
- Calling `validate` twice on the same blog gives the same list. In the model this holds by construction, because `Validate` is a function of a `Draft` value. No separate lemma states it.
- `len` is taken as the number of Unicode scalar values (Dafny's `char`). Strings containing lone surrogates are not modelled.
