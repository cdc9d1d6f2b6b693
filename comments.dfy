/**
 * The comment section under an article: posting a comment, deleting one, the
 * input box and its `isSubmitting` flag, and who sees a delete button.
 */
module Comments {
  import opened Wrappers
  import opened Sequences
  import opened JsStrings
  import opened AuthUser

  datatype Profile = Profile(fullName: string, avatarUrl: string)

  datatype Comment = Comment(id: string, content: string, createdAt: string, userId: string, profile: Profile)

  /** What `createComment` is asked to store, and the flag while it ran. */
  datatype CreateRequest = CreateRequest(postId: string, content: string, submittingDuringCall: bool)

  /** `comments.filter(c => c.id !== id)`. */
  function RemoveById(comments: seq<Comment>, id: string): (r: seq<Comment>)
    ensures forall c :: c in r <==> c in comments && c.id != id
    ensures IsSubsequence(r, comments)
    ensures |r| == |comments| - CountId(comments, id)
  {
    if comments == [] then []
    else if comments[0].id == id then
      var rest := RemoveById(comments[1..], id);
      assert rest == [] || IsSubsequence(rest, comments[1..]);
      rest
    else
      var rest := RemoveById(comments[1..], id);
      assert ([comments[0]] + rest)[1..] == rest;
      [comments[0]] + rest
  }

  /** How many comments carry the id. */
  function CountId(comments: seq<Comment>, id: string): (n: nat)
    ensures n <= |comments|
    ensures n == 0 <==> forall i :: 0 <= i < |comments| ==> comments[i].id != id
  {
    if comments == [] then 0
    else (if comments[0].id == id then 1 else 0) + CountId(comments[1..], id)
  }

  /** Removing an id that no comment has leaves the list as it is. */
  lemma {:induction false} RemoveAbsentId(comments: seq<Comment>, id: string)
    requires forall i :: 0 <= i < |comments| ==> comments[i].id != id
    ensures RemoveById(comments, id) == comments
  {
    if comments != [] {
      RemoveAbsentId(comments[1..], id);
    }
  }

  /** Deleting a comment just posted, whose id was new, restores the list. */
  lemma {:induction false} DeleteUndoesSubmit(comments: seq<Comment>, c: Comment)
    requires forall i :: 0 <= i < |comments| ==> comments[i].id != c.id
    ensures RemoveById(comments + [c], c.id) == comments
  {
    if comments == [] {
      assert comments + [c] == [c];
    } else {
      assert (comments + [c])[0] == comments[0] && (comments + [c])[1..] == comments[1..] + [c];
      DeleteUndoesSubmit(comments[1..], c);
    }
  }

  /** The delete button is shown to the author of the comment and to admins. */
  predicate CanDelete(user: Option<User>, c: Comment) {
    user.Some? && (user.value.id == c.userId || user.value.isAdmin)
  }

  /** Signed-out visitors never see it, admins always do, and otherwise it is
      exactly the author's own comments. */
  lemma CanDeleteCases(user: Option<User>, comments: seq<Comment>)
    ensures user == None ==> forall c :: c in comments ==> !CanDelete(user, c)
    ensures user.Some? && user.value.isAdmin ==> forall c :: c in comments ==> CanDelete(user, c)
    ensures user.Some? && !user.value.isAdmin ==>
      forall c :: c in comments ==> (CanDelete(user, c) <==> c.userId == user.value.id)
  {
  }

  /** The section heading for a list of `n` comments. */
  function HeadingText(n: nat): (h: string)
    ensures |h| >= 12 && h[..10] == "Comments (" && h[|h| - 1] == ')'
  {
    "Comments (" + DecimalString(n) + ")"
  }

  /** The number printed in the heading reads back as the count. */
  lemma HeadingShowsCount(n: nat)
    ensures var h := HeadingText(n);
      (forall i :: 10 <= i < |h| - 1 ==> '0' <= h[i] <= '9') && DecimalValue(h[10..|h| - 1]) == n
  {
    var h := HeadingText(n);
    assert h[10..|h| - 1] == DecimalString(n);
    DecimalRoundTrip(n);
  }

  /** The guard of `handleSubmit`: something to send and someone to send it. */
  predicate Sends(input: string, user: Option<User>) {
    Trim(input) != "" && user.Some?
  }

  const CreateFailedAlert := "Failed to create comment. Please try again."
  const DeleteFailedAlert := "Failed to delete comment. Please try again."

  class CommentsSection {
    const postId: string
    const user: Option<User>
    var comments: seq<Comment>
    var newComment: string
    var isSubmitting: bool

    constructor(postId: string, user: Option<User>, initial: seq<Comment>)
      ensures this.postId == postId && this.user == user
      ensures comments == initial && newComment == "" && !isSubmitting
    {
      this.postId := postId;
      this.user := user;
      comments := initial;
      newComment := "";
      isSubmitting := false;
    }

    /** Typing into the box. */
    method Type(text: string)
      modifies this
      ensures newComment == text
      ensures comments == old(comments) && isSubmitting == old(isSubmitting)
    {
      newComment := text;
    }

    /** The submit button is off while posting and while the box is blank. */
    predicate SubmitDisabled()
      reads this
    {
      isSubmitting || Trim(newComment) == ""
    }

    /** The heading: the number of comments in the list. */
    function Heading(): (h: string)
      reads this
      ensures h == HeadingText(|comments|)
    {
      HeadingText(|comments|)
    }

    /** `handleSubmit`: `created` is the stored comment, or `None` when the
        store refused. */
    method HandleSubmit(created: Option<Comment>) returns (request: Option<CreateRequest>, alert: Option<string>)
      modifies this
      ensures var sends := Sends(old(newComment), user);
        && request == (if sends then Some(CreateRequest(postId, Trim(old(newComment)), true)) else None)
        && isSubmitting == (!sends && old(isSubmitting))
        && comments == (if sends && created.Some? then old(comments) + [created.value] else old(comments))
        && newComment == (if sends && created.Some? then "" else old(newComment))
        && alert == (if sends && created.None? then Some(CreateFailedAlert) else None)
    {
      if !Sends(newComment, user) {
        return None, None;
      }
      request, alert := Post(Trim(newComment), created);
    }

    /** The part of `handleSubmit` past the guard: the flag is up while the
        store is called with `text`, and the list and box follow its answer. */
    method Post(text: string, created: Option<Comment>) returns (request: Option<CreateRequest>, alert: Option<string>)
      modifies this
      ensures request == Some(CreateRequest(postId, text, true)) && !isSubmitting
      ensures comments == (if created.Some? then old(comments) + [created.value] else old(comments))
      ensures newComment == (if created.Some? then "" else old(newComment))
      ensures alert == (if created.None? then Some(CreateFailedAlert) else None)
    {
      isSubmitting := true;
      request := Some(CreateRequest(postId, text, isSubmitting));
      if created.Some? {
        comments := comments + [created.value];
        newComment := "";
        alert := None;
      } else {
        alert := Some(CreateFailedAlert);
      }
      isSubmitting := false;
    }

    /** `handleDelete`: `deleted` is whether the store removed the comment. */
    method HandleDelete(commentId: string, deleted: bool) returns (alert: Option<string>)
      modifies this
      ensures deleted ==> comments == RemoveById(old(comments), commentId) && alert == None
      ensures !deleted ==> comments == old(comments) && alert == Some(DeleteFailedAlert)
      ensures newComment == old(newComment) && isSubmitting == old(isSubmitting)
    {
      if deleted {
        comments := RemoveById(comments, commentId);
        alert := None;
      } else {
        alert := Some(DeleteFailedAlert);
      }
    }
  }

  /** A user who can submit, i.e. whose button is on, is never turned away by
      the guard: the comment is sent and, once stored, heads the count up by one. */
  method SubmitThenCount(section: CommentsSection, c: Comment)
    requires section.user.Some? && !section.SubmitDisabled()
    modifies section
    ensures |section.comments| == |old(section.comments)| + 1
    ensures section.Heading() == HeadingText(|old(section.comments)| + 1)
  {
    var request, alert := section.HandleSubmit(Some(c));
  }
}
