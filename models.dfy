/**
 The entity layer: the `Blog` and `Comment` records and the field rules of
 `Blog.validate`. A `Draft` is a blog candidate as the handlers build it from
 form input, before anything is persisted; Python's `None` is `None` here.
 */
module Models {
  import opened PyStr

  datatype Option<T> = None | Some(value: T)

  /** The three user-editable fields of a blog, each possibly absent. */
  datatype Draft = Draft(title: Option<string>, body: Option<string>, userName: Option<string>)

  /** A persisted row of the `blogs` table (the id is the key it is stored under). */
  datatype Blog = Blog(title: string, body: string, userName: string, createdAt: int)
  {
    /** The blog object as `validate` sees it. */
    function AsDraft(): Draft {
      Draft(Some(title), Some(body), Some(userName))
    }
  }

  /** A persisted row of the `comments` table. */
  datatype Comment = Comment(id: int, blogId: int, body: string, userName: string, createdAt: int)

  const MaxTitleLength := 100
  const MaxUserNameLength := 50

  /** The five messages `validate` can produce. */
  datatype FieldError = TitleRequired | TitleTooLong | BodyRequired | UserNameRequired | UserNameTooLong
  {
    /** The user-visible text of the message. */
    function Message(): string {
      match this
      case TitleRequired => "タイトルを入力してください。"
      case TitleTooLong => "タイトルは100文字以内で入力してください。"
      case BodyRequired => "本文を入力してください。"
      case UserNameRequired => "投稿者名を入力してください。"
      case UserNameTooLong => "投稿者名は50文字以内で入力してください。"
    }

    /** Position of the field the message is about: title, then body, then user name. */
    function FieldIndex(): nat {
      match this
      case TitleRequired | TitleTooLong => 0
      case BodyRequired => 1
      case UserNameRequired | UserNameTooLong => 2
    }
  }

  /** Python's `not v or v.strip() == ""` on a field value. */
  predicate IsBlank(v: Option<string>) {
    v.None? || v.value == [] || Strip(v.value) == []
  }

  /** Reference reading of a required field: present and holding a non-whitespace character. */
  predicate HasText(v: Option<string>) {
    v.Some? && !AllSpace(v.value)
  }

  lemma IsBlankIffNoText(v: Option<string>)
    ensures IsBlank(v) <==> !HasText(v)
  {
    if v.Some? {
      StripEmptyIffAllSpace(v.value);
    }
  }

  /** The title part of `validate`: "required", else (`elif`) "too long". */
  function TitleErrors(title: Option<string>): (errs: seq<FieldError>)
    ensures |errs| <= 1 && forall e <- errs :: e.FieldIndex() == 0
  {
    if IsBlank(title) then [TitleRequired]
    else if |title.value| > MaxTitleLength then [TitleTooLong]
    else []
  }

  /** The body part of `validate`: "required" only, no length limit. */
  function BodyErrors(body: Option<string>): (errs: seq<FieldError>)
    ensures |errs| <= 1 && forall e <- errs :: e.FieldIndex() == 1
  {
    if IsBlank(body) then [BodyRequired] else []
  }

  /** The user-name part of `validate`: "required", else (`elif`) "too long". */
  function UserNameErrors(userName: Option<string>): (errs: seq<FieldError>)
    ensures |errs| <= 1 && forall e <- errs :: e.FieldIndex() == 2
  {
    if IsBlank(userName) then [UserNameRequired]
    else if |userName.value| > MaxUserNameLength then [UserNameTooLong]
    else []
  }

  /** Reference reading of the rules: all three fields meet them. */
  predicate Acceptable(d: Draft) {
    && HasText(d.title) && |d.title.value| <= MaxTitleLength
    && HasText(d.body)
    && HasText(d.userName) && |d.userName.value| <= MaxUserNameLength
  }

  /**
   `Blog.validate`: the errors of a candidate, in field order. There are none
   exactly when the candidate is acceptable; there is at most one per field.
   */
  function Validate(d: Draft): (errs: seq<FieldError>)
    ensures errs == [] <==> Acceptable(d)
    ensures |errs| <= 3
    ensures forall i, j :: 0 <= i < j < |errs| ==> errs[i].FieldIndex() < errs[j].FieldIndex()
  {
    IsBlankIffNoText(d.title);
    IsBlankIffNoText(d.body);
    IsBlankIffNoText(d.userName);
    var t, b, u := TitleErrors(d.title), BodyErrors(d.body), UserNameErrors(d.userName);
    assert forall i :: 0 <= i < |t + b + u| ==>
      (t + b + u)[i].FieldIndex() == if i < |t| then 0 else if i < |t| + |b| then 1 else 2;
    t + b + u
  }

  /** The list of strings `validate` returns: the text of each error, in order. */
  function Messages(errs: seq<FieldError>): seq<string> {
    seq(|errs|, i requires 0 <= i < |errs| => errs[i].Message())
  }

  /** Distinct error lists have distinct texts, so the flashed messages identify the errors. */
  lemma MessagesDetermineErrors(errs1: seq<FieldError>, errs2: seq<FieldError>)
    requires Messages(errs1) == Messages(errs2)
    ensures errs1 == errs2
  {
    assert |errs1| == |Messages(errs1)| == |Messages(errs2)| == |errs2|;
    forall i | 0 <= i < |errs1| ensures errs1[i] == errs2[i] {
      assert Messages(errs1)[i] == Messages(errs2)[i];
    }
  }

  /** Each message appears exactly under the condition the field rules give it. */
  lemma ValidateFieldRules(d: Draft)
    ensures TitleRequired in Validate(d) <==> !HasText(d.title)
    ensures TitleTooLong in Validate(d) <==> HasText(d.title) && |d.title.value| > MaxTitleLength
    ensures BodyRequired in Validate(d) <==> !HasText(d.body)
    ensures UserNameRequired in Validate(d) <==> !HasText(d.userName)
    ensures UserNameTooLong in Validate(d) <==> HasText(d.userName) && |d.userName.value| > MaxUserNameLength
  {
    IsBlankIffNoText(d.title);
    IsBlankIffNoText(d.body);
    IsBlankIffNoText(d.userName);
  }

  /** A blank title yields only "title required", however long it is. */
  lemma BlankTitleOnlyRequired(d: Draft)
    requires !HasText(d.title)
    ensures |Validate(d)| > 0 && Validate(d)[0] == TitleRequired
    ensures TitleTooLong !in Validate(d)
  {
    ValidateFieldRules(d);
  }

  /** A non-blank title over 100 characters yields exactly "title too long" for the title. */
  lemma LongTitleOnlyTooLong(d: Draft)
    requires HasText(d.title) && |d.title.value| > MaxTitleLength
    ensures |Validate(d)| > 0 && Validate(d)[0] == TitleTooLong
    ensures TitleRequired !in Validate(d)
  {
    ValidateFieldRules(d);
  }

  /** A blank user name yields only "user name required"; a non-blank one over 50 characters only "too long". */
  lemma UserNameRules(d: Draft)
    ensures !HasText(d.userName) ==>
      |Validate(d)| > 0 && Validate(d)[|Validate(d)| - 1] == UserNameRequired && UserNameTooLong !in Validate(d)
    ensures HasText(d.userName) && |d.userName.value| > MaxUserNameLength ==>
      |Validate(d)| > 0 && Validate(d)[|Validate(d)| - 1] == UserNameTooLong && UserNameRequired !in Validate(d)
  {
    ValidateFieldRules(d);
  }

  /** The body has no length limit: any body with text contributes no message. */
  lemma BodyHasNoLengthLimit(d: Draft)
    requires HasText(d.body)
    ensures BodyRequired !in Validate(d)
    ensures Validate(d) == TitleErrors(d.title) + UserNameErrors(d.userName)
  {
    IsBlankIffNoText(d.body);
  }

  /** Example: a title of 101 spaces gives the "required" message and not the length message. */
  lemma SpacesTitleExample()
    ensures Validate(Draft(Some(seq(101, _ => ' ')), Some("body"), Some("name"))) == [TitleRequired]
  {
    var d := Draft(Some(seq(101, _ => ' ')), Some("body"), Some("name"));
    ValidateFieldRules(d);
    assert !AllSpace("body") by { assert !IsSpace("body"[0]); }
    assert !AllSpace("name") by { assert !IsSpace("name"[0]); }
  }
}
