/** Concrete inputs at the boundaries of each validator, and the two
    end-to-end creation scenarios of the blogging domain. */
module Scenarios {
  import opened Validation
  import opened Text
  import opened Authors
  import opened Posts

  /** `n` copies of the letter 'x'. */
  function Filler(n: nat): (s: string)
    ensures |s| == n && forall i :: 0 <= i < n ==> s[i] == 'x'
  {
    seq(n, _ => 'x')
  }

  lemma BlankNamesRejected(existing: set<string>)
    ensures ValidateName("", existing) == Err(NameMissing)
    ensures ValidateName(" \t\n", existing) == Err(NameMissing)
  {
  }

  lemma NameMatchIsCaseSensitive()
    ensures ValidateName("Jane Doe", {"Jane Doe"}) == Err(NameTaken)
    ensures ValidateName("jane doe", {"Jane Doe"}) == Ok("jane doe")
  {
  }

  lemma PhoneAccepted()
    ensures ValidatePhone("5551234567") == Ok("5551234567")
  {
    var p := "5551234567";
    assert forall i :: 0 <= i < |p| ==> IsAsciiDigit(p[i]);
  }

  lemma PhonesRejected()
    ensures ValidatePhone("555-123-4567") == Err(PhoneInvalid)
    ensures ValidatePhone("12345") == Err(PhoneInvalid)
    ensures ValidatePhone("") == Err(PhoneInvalid)
  {
  }

  lemma ContentBoundary()
    ensures ValidateContent(Filler(249)) == Err(ContentTooShort)
    ensures ValidateContent(Filler(250)) == Ok(Filler(250))
    ensures ValidateContent("") == Err(ContentTooShort)
  {
  }

  lemma SummaryBoundary()
    ensures ValidateSummary("") == Ok("")
    ensures ValidateSummary(Filler(250)) == Ok(Filler(250))
    ensures ValidateSummary(Filler(251)) == Err(SummaryTooLong)
  {
  }

  lemma CategoryExamples()
    ensures ValidateCategory("Fiction") == Ok("Fiction")
    ensures ValidateCategory("Non-Fiction") == Ok("Non-Fiction")
    ensures ValidateCategory("fiction") == Err(CategoryInvalid)
    ensures ValidateCategory("Mystery") == Err(CategoryInvalid)
  {
  }

  lemma ClickbaitTitleAccepted()
    ensures ValidateTitle("Top 10 Secrets") == Ok("Top 10 Secrets")
  {
    assert OccursAt("Top 10 Secrets", "Top", 0);
  }

  lemma PlainTitleRejected()
    ensures ValidateTitle("A Quiet Afternoon") == Err(TitleNotClickbait)
  {
    TitleWithoutInitialsRejected("A Quiet Afternoon");
  }

  /** Jane Doe, with phone number 5551234567, is created in an empty store. */
  lemma FirstAuthorCreated()
    ensures NewAuthor(Some("Jane Doe"), Some("5551234567"), {}) == Ok(Author(Some("Jane Doe"), Some("5551234567")))
  {
    PhoneAccepted();
    assert !IsWhitespace("Jane Doe"[0]);
  }

  /** Once Jane Doe is stored, a second Jane Doe, with another phone number, is
      refused as not unique. */
  lemma DuplicateAuthorRefused()
    ensures NewAuthor(Some("Jane Doe"), Some("5559998888"), Names([Author(Some("Jane Doe"), Some("5551234567"))])) == Err(NameTaken)
  {
    FirstAuthorCreated();
    SecondAuthorWithSameNameFails([], "Jane Doe", Some("5551234567"), Some("5559998888"));
    assert [] + [Author(Some("Jane Doe"), Some("5551234567"))] == [Author(Some("Jane Doe"), Some("5551234567"))];
  }

  /** A well-formed post is created; the same post in category "Drama" is refused. */
  lemma PostScenario()
    ensures NewPost(Some("Top Secret Diary"), Some(Filler(300)), Some(Filler(100)), Some("Fiction")).Ok?
    ensures NewPost(Some("Top Secret Diary"), Some(Filler(300)), Some(Filler(100)), Some("Drama")) == Err(CategoryInvalid)
  {
    assert OccursAt("Top Secret Diary", "Top", 0);
  }
}
