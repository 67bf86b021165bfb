/** The Post record type and its four field validators. */
module Posts {
  import opened Validation
  import opened Text

  const ContentTooShort := "Post content must be at least 250 characters."
  const SummaryTooLong := "Summary must be no more than 250 characters."
  const CategoryInvalid := "Category must be Fiction or Non-Fiction."
  const TitleNotClickbait := "Title must be clickbait-y."

  const MinContentLength := 250
  const MaxSummaryLength := 250
  const Categories: seq<string> := ["Fiction", "Non-Fiction"]
  const Clickbait: seq<string> := ["Won't Believe", "Secret", "Top", "Guess"]

  /** validate_content: refuses empty content and content shorter than 250
      characters; since 250 > 0 the bound alone decides. */
  function ValidateContent(content: string): (r: Result<string>)
    ensures r.Ok? <==> |content| >= MinContentLength
    ensures r.Ok? ==> r.value == content
    ensures r.Err? ==> r.msg == ContentTooShort
  {
    if content == [] || |content| < MinContentLength then Err(ContentTooShort) else Ok(content)
  }

  /** validate_summary: accepts any summary of at most 250 characters, the empty
      one included. */
  function ValidateSummary(summary: string): (r: Result<string>)
    ensures r.Ok? <==> |summary| <= MaxSummaryLength
    ensures r.Ok? ==> r.value == summary
    ensures r.Err? ==> r.msg == SummaryTooLong
  {
    if |summary| > MaxSummaryLength then Err(SummaryTooLong) else Ok(summary)
  }

  /** validate_category: exactly "Fiction" or "Non-Fiction", case-sensitive. */
  function ValidateCategory(category: string): (r: Result<string>)
    ensures r.Ok? <==> category == "Fiction" || category == "Non-Fiction"
    ensures r.Ok? ==> r.value == category
    ensures r.Err? ==> r.msg == CategoryInvalid
  {
    if category !in Categories then Err(CategoryInvalid) else Ok(category)
  }

  /** validate_title: the title must contain one of the four phrases as a
      contiguous, case-sensitive substring. */
  function ValidateTitle(title: string): (r: Result<string>)
    ensures r.Ok? <==> (Contains(title, "Won't Believe") || Contains(title, "Secret")
                       || Contains(title, "Top") || Contains(title, "Guess"))
    ensures r.Ok? ==> r.value == title
    ensures r.Err? ==> r.msg == TitleNotClickbait
  {
    assert Clickbait[0] == "Won't Believe" && Clickbait[1] == "Secret";
    assert Clickbait[2] == "Top" && Clickbait[3] == "Guess";
    if !AnyOccurs(Clickbait, title) then Err(TitleNotClickbait) else Ok(title)
  }

  /** A title is accepted exactly when some phrase occurs in it at some index. */
  lemma TitleAcceptedIffPhraseOccurs(title: string)
    ensures ValidateTitle(title).Ok?
      <==> exists k, i: nat :: 0 <= k < |Clickbait| && OccursAt(title, Clickbait[k], i)
  {
    if ValidateTitle(title).Ok? {
      var k :| 0 <= k < |Clickbait| && Contains(title, Clickbait[k]);
      var i: nat :| OccursAt(title, Clickbait[k], i);
    }
  }

  /** A title in which none of the phrases' initial letters appears is refused. */
  lemma TitleWithoutInitialsRejected(title: string)
    requires 'W' !in title && 'S' !in title && 'T' !in title && 'G' !in title
    ensures ValidateTitle(title) == Err(TitleNotClickbait)
  {
    FirstCharAbsent(title, "Won't Believe");
    FirstCharAbsent(title, "Secret");
    FirstCharAbsent(title, "Top");
    FirstCharAbsent(title, "Guess");
  }

  /** The validated fields of a Post; None is a field never assigned. */
  datatype Post = Post(title: Option<string>, content: Option<string>,
                       summary: Option<string>, category: Option<string>)

  /** Assigning `post.title = title`; on failure the post keeps its old title. */
  function SetTitle(post: Post, title: string): (r: Result<Post>)
    ensures r.Ok? <==> ValidateTitle(title).Ok?
    ensures r.Ok? ==> r.value == post.(title := Some(title))
    ensures r.Err? ==> r.msg == TitleNotClickbait
  {
    var v :- ValidateTitle(title);
    Ok(post.(title := Some(v)))
  }

  /** Assigning `post.content = content`. */
  function SetContent(post: Post, content: string): (r: Result<Post>)
    ensures r.Ok? <==> |content| >= MinContentLength
    ensures r.Ok? ==> r.value == post.(content := Some(content))
    ensures r.Err? ==> r.msg == ContentTooShort
  {
    var v :- ValidateContent(content);
    Ok(post.(content := Some(v)))
  }

  /** Assigning `post.summary = summary`. */
  function SetSummary(post: Post, summary: string): (r: Result<Post>)
    ensures r.Ok? <==> |summary| <= MaxSummaryLength
    ensures r.Ok? ==> r.value == post.(summary := Some(summary))
    ensures r.Err? ==> r.msg == SummaryTooLong
  {
    var v :- ValidateSummary(summary);
    Ok(post.(summary := Some(v)))
  }

  /** Assigning `post.category = category`. */
  function SetCategory(post: Post, category: string): (r: Result<Post>)
    ensures r.Ok? <==> category in Categories
    ensures r.Ok? ==> r.value == post.(category := Some(category))
    ensures r.Err? ==> r.msg == CategoryInvalid
  {
    var v :- ValidateCategory(category);
    Ok(post.(category := Some(v)))
  }

  /** Every field the post holds satisfies its validator. */
  predicate ValidPost(post: Post) {
    (post.title.Some? ==> ValidateTitle(post.title.value).Ok?)
    && (post.content.Some? ==> ValidateContent(post.content.value).Ok?)
    && (post.summary.Some? ==> ValidateSummary(post.summary.value).Ok?)
    && (post.category.Some? ==> ValidateCategory(post.category.value).Ok?)
  }

  /** Through the validators a post never holds an invalid field: each assignment
      either fails or keeps ValidPost. */
  lemma AssignmentsPreserveValidPost(post: Post, s: string)
    requires ValidPost(post)
    ensures SetTitle(post, s).Ok? ==> ValidPost(SetTitle(post, s).value)
    ensures SetContent(post, s).Ok? ==> ValidPost(SetContent(post, s).value)
    ensures SetSummary(post, s).Ok? ==> ValidPost(SetSummary(post, s).value)
    ensures SetCategory(post, s).Ok? ==> ValidPost(SetCategory(post, s).value)
  {
  }

  /** `Post(title=..., content=..., summary=..., category=...)`: each keyword
      given is assigned in that order through its validator; the first one that
      raises aborts the construction. */
  function NewPost(title: Option<string>, content: Option<string>,
                   summary: Option<string>, category: Option<string>): (r: Result<Post>)
    ensures r.Ok? <==> ValidPost(Post(title, content, summary, category))
    ensures r.Ok? ==> r.value == Post(title, content, summary, category)
    ensures title.Some? && ValidateTitle(title.value).Err? ==> r == Err(TitleNotClickbait)
    ensures ((title.Some? ==> ValidateTitle(title.value).Ok?)
             && content.Some? && ValidateContent(content.value).Err?)
      ==> r == Err(ContentTooShort)
    ensures ((title.Some? ==> ValidateTitle(title.value).Ok?)
             && (content.Some? ==> ValidateContent(content.value).Ok?)
             && summary.Some? && ValidateSummary(summary.value).Err?)
      ==> r == Err(SummaryTooLong)
    ensures ((title.Some? ==> ValidateTitle(title.value).Ok?)
             && (content.Some? ==> ValidateContent(content.value).Ok?)
             && (summary.Some? ==> ValidateSummary(summary.value).Ok?)
             && category.Some? && ValidateCategory(category.value).Err?)
      ==> r == Err(CategoryInvalid)
  {
    var p0 := Post(None, None, None, None);
    var p1 :- if title.Some? then SetTitle(p0, title.value) else Ok(p0);
    var p2 :- if content.Some? then SetContent(p1, content.value) else Ok(p1);
    var p3 :- if summary.Some? then SetSummary(p2, summary.value) else Ok(p2);
    if category.Some? then SetCategory(p3, category.value) else Ok(p3)
  }

  /** Every post validator returns an accepted value unchanged, so re-validating
      it succeeds again. */
  lemma RevalidatePostFields(s: string)
    ensures ValidateContent(s).Ok? ==> ValidateContent(ValidateContent(s).value) == Ok(s)
    ensures ValidateSummary(s).Ok? ==> ValidateSummary(ValidateSummary(s).value) == Ok(s)
    ensures ValidateCategory(s).Ok? ==> ValidateCategory(ValidateCategory(s).value) == Ok(s)
    ensures ValidateTitle(s).Ok? ==> ValidateTitle(ValidateTitle(s).value) == Ok(s)
  {
  }
}
