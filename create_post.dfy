/**
 * The page that writes a new article: the title guard, the record handed to
 * the store on save and on publish, and the `isSaving` flag around the call.
 */
module CreatePost {
  import opened Wrappers
  import opened JsStrings
  import opened AuthUser
  import Blog

  /** The form's five text fields. */
  datatype FormData = FormData(
    title: string, excerpt: string, category: string, seoTitle: string, seoDescription: string)

  /** The empty form the page starts with. */
  const EmptyForm := FormData("", "", "", "", "")

  datatype Status = Draft | Published

  /** The record sent to the store (`CreateBlogPostData`). */
  datatype PostData = PostData(
    title: string,
    slug: string,
    excerpt: string,
    content: Blog.Content,
    authorId: string,
    status: Status,
    category: string,
    seoTitle: string,
    seoDescription: string,
    publishedAt: Option<string>)

  /** `a || b` on strings: the empty string is falsy. */
  function JsOr(a: string, b: string): (r: string)
    ensures a != "" ==> r == a
    ensures a == "" ==> r == b
    ensures r == "" <==> a == "" && b == ""
  {
    if a != "" then a else b
  }

  /** The title guard: a title that trims to nothing stops both handlers. */
  predicate TitleMissing(form: FormData) {
    Trim(form.title) == ""
  }

  /** The record `handleSave` builds. */
  function DraftRecord(form: FormData, content: Blog.Content, authorId: string): PostData {
    PostData(form.title, Blog.GenerateSlug(form.title), form.excerpt, content, authorId, Draft,
             form.category, JsOr(form.seoTitle, form.title), JsOr(form.seoDescription, form.excerpt), None)
  }

  /** The record `handlePublish` builds, stamped with the time of the call. */
  function PublishedRecord(form: FormData, content: Blog.Content, authorId: string, now: string): PostData {
    PostData(form.title, Blog.GenerateSlug(form.title), form.excerpt, content, authorId, Published,
             form.category, JsOr(form.seoTitle, form.title), JsOr(form.seoDescription, form.excerpt), Some(now))
  }

  /** What a saved draft records: the untrimmed title, its slug, the excerpt,
      content and category as given, the SEO fallbacks, draft status and no
      publication time. */
  lemma DraftRecordFields(form: FormData, content: Blog.Content, authorId: string)
    ensures var r := DraftRecord(form, content, authorId);
      r.title == form.title && Blog.IsSlug(r.slug) && r.slug == Blog.GenerateSlug(form.title)
      && r.excerpt == form.excerpt && r.content == content && r.category == form.category
      && r.authorId == authorId && r.status == Draft && r.publishedAt == None
      && (form.seoTitle != "" ==> r.seoTitle == form.seoTitle)
      && (form.seoTitle == "" ==> r.seoTitle == form.title)
      && (form.seoDescription != "" ==> r.seoDescription == form.seoDescription)
      && (form.seoDescription == "" ==> r.seoDescription == form.excerpt)
  {
    var slug := Blog.GenerateSlug(form.title);
    assert Blog.IsSlug(slug);
    assert DraftRecord(form, content, authorId).slug == slug;
  }

  /** A record built past the title guard always has a non-empty SEO title. */
  lemma SeoTitleNeverEmpty(form: FormData, content: Blog.Content, authorId: string, now: string)
    requires !TitleMissing(form)
    ensures DraftRecord(form, content, authorId).seoTitle != ""
    ensures PublishedRecord(form, content, authorId, now).seoTitle != ""
  {
    assert form.title != "";
  }

  /** Publishing records the same post as saving, except for the status and
      the publication time. */
  lemma PublishDiffersOnlyInStatus(form: FormData, content: Blog.Content, authorId: string, now: string)
    ensures PublishedRecord(form, content, authorId, now)
         == DraftRecord(form, content, authorId).(status := Published, publishedAt := Some(now))
  {
  }

  /** One call into the store: the record and the value of `isSaving` while it ran. */
  datatype CreateCall = CreateCall(data: PostData, savingDuringCall: bool)

  /** The page: an access-denied notice without a user, the editor otherwise. */
  datatype PageView = AccessDenied | Editor(form: FormData, isSaving: bool)

  const TitleAlert := "Please enter a title"
  const DraftSavedAlert := "Draft saved successfully!"
  const DraftFailedAlert := "Error saving post. Please try again."
  const PublishedAlert := "Post published successfully!"
  const PublishFailedAlert := "Error publishing post. Please try again."

  class CreatePostPage {
    const user: Option<User>
    var form: FormData
    var isSaving: bool

    constructor(user: Option<User>)
      ensures this.user == user && form == EmptyForm && !isSaving
    {
      this.user := user;
      form := EmptyForm;
      isSaving := false;
    }

    /** The handlers are only reachable from the editor, which needs a user. */
    function View(): (v: PageView)
      reads this
      ensures v == AccessDenied <==> user == None
      ensures v.Editor? ==> v.form == form && v.isSaving == isSaving
    {
      if user == None then AccessDenied else Editor(form, isSaving)
    }

    /** Typing into the form. */
    method Edit(newForm: FormData)
      modifies this
      ensures form == newForm && isSaving == old(isSaving)
    {
      form := newForm;
    }

    /** `handleSave`: `createOk` is whether the store accepted the record. */
    method HandleSave(content: Blog.Content, createOk: bool) returns (call: Option<CreateCall>, alert: string)
      requires user.Some?
      modifies this
      ensures form == old(form)
      ensures TitleMissing(form) ==> call == None && alert == TitleAlert && isSaving == old(isSaving)
      ensures !TitleMissing(form) ==>
        call == Some(CreateCall(DraftRecord(form, content, user.value.id), true))
        && !isSaving
        && alert == (if createOk then DraftSavedAlert else DraftFailedAlert)
    {
      var missing := TitleMissing(form);
      if missing {
        return None, TitleAlert;
      }
      isSaving := true;
      var data := DraftRecord(form, content, user.value.id);
      call := Some(CreateCall(data, isSaving));
      alert := if createOk then DraftSavedAlert else DraftFailedAlert;
      isSaving := false;
    }

    /** `handlePublish`: `now` is the clock reading and `createOk` the store's
        answer; a successful publish goes to the article list. */
    method HandlePublish(content: Blog.Content, createOk: bool, now: string)
      returns (call: Option<CreateCall>, alert: string, redirect: Option<string>)
      requires user.Some?
      modifies this
      ensures form == old(form)
      ensures TitleMissing(form) ==>
        call == None && alert == TitleAlert && redirect == None && isSaving == old(isSaving)
      ensures !TitleMissing(form) ==>
        call == Some(CreateCall(PublishedRecord(form, content, user.value.id, now), true))
        && !isSaving
        && alert == (if createOk then PublishedAlert else PublishFailedAlert)
        && redirect == (if createOk then Some("/blog") else None)
    {
      var missing := TitleMissing(form);
      if missing {
        return None, TitleAlert, None;
      }
      isSaving := true;
      var data := PublishedRecord(form, content, user.value.id, now);
      call := Some(CreateCall(data, isSaving));
      if createOk {
        alert, redirect := PublishedAlert, Some("/blog");
      } else {
        alert, redirect := PublishFailedAlert, None;
      }
      isSaving := false;
    }
  }
}
