/** The engagement state of a project card on the student dashboard: whether
    the signed-in student likes the project, the like count, the comment list,
    the comment count and the comment being typed. The like and comment
    handlers take the server's answer as a parameter. */
module ProjectCard {
  import opened Common

  const DefaultAuthor := "You"

  /** A like row of the project, as loaded with it. */
  datatype Like = Like(studentId: string)

  /** A comment as the card lists it: the server's JSON payload, the time
      stamp and the author's display name. */
  datatype Comment = Comment(payload: string, createdAt: string, authorName: string)

  /** The characters `String.prototype.trim` removes: the ECMAScript white
      space and line terminators. */
  predicate IsJsWhitespace(c: char) {
    || c == '\t' || c == '\n' || c == '\U{000B}' || c == '\U{000C}' || c == '\r' || c == ' '
    || c == '\U{00A0}' || c == '\U{1680}' || ('\U{2000}' <= c <= '\U{200A}')
    || c == '\U{2028}' || c == '\U{2029}' || c == '\U{202F}' || c == '\U{205F}'
    || c == '\U{3000}' || c == '\U{FEFF}'
  }

  /** `!s.trim()`: nothing is left once the white space is removed. */
  predicate Blank(s: string) {
    forall i :: 0 <= i < |s| ==> IsJsWhitespace(s[i])
  }

  /** `likes.some(like => like.student_id === studentId)`. */
  function LikedBy(likes: seq<Like>, studentId: string): (r: bool)
    ensures r <==> exists i :: 0 <= i < |likes| && likes[i].studentId == studentId
    ensures r ==> |likes| >= 1
  {
    if likes == [] then false
    else likes[0].studentId == studentId || LikedBy(likes[1..], studentId)
  }

  class Card {
    const studentId: string
    var isLiked: bool
    var likeCount: int
    var comments: seq<Comment>
    var commentCount: int
    var newComment: string
    /** The likes of the other students, which the card never changes. */
    ghost const othersLikes: nat

    /** The counts agree with what the card shows: the like count is the
        others' likes plus this student's, the comment count is the length
        of the list. */
    ghost predicate Valid()
      reads this
    {
      && likeCount == othersLikes + (if isLiked then 1 else 0)
      && commentCount == |comments|
    }

    /** The initial `useState` values. */
    constructor (likes: seq<Like>, initialComments: seq<Comment>, studentId: string)
      ensures Valid()
      ensures this.studentId == studentId
      ensures isLiked <==> exists i :: 0 <= i < |likes| && likes[i].studentId == studentId
      ensures likeCount == |likes|
      ensures comments == initialComments && commentCount == |initialComments|
      ensures newComment == ""
    {
      this.studentId := studentId;
      var liked := LikedBy(likes, studentId);
      isLiked := liked;
      likeCount := |likes|;
      othersLikes := if liked then |likes| - 1 else |likes|;
      comments := initialComments;
      commentCount := |initialComments|;
      newComment := "";
    }

    /** The comment input's `onChange`. */
    method EditComment(s: string)
      modifies this
      ensures newComment == s
      ensures isLiked == old(isLiked) && likeCount == old(likeCount)
      ensures comments == old(comments) && commentCount == old(commentCount)
    {
      newComment := s;
    }

    /** `handleLike`. `ok` is whether the like request succeeded; a failed
        or refused request changes nothing. Returns the request's method. */
    method HandleLike(ok: bool) returns (m: HttpMethod)
      requires Valid()
      modifies this
      ensures Valid() && likeCount >= 0
      ensures m == if old(isLiked) then Delete else Post
      ensures ok ==> isLiked == !old(isLiked)
                     && likeCount == old(likeCount) + (if old(isLiked) then -1 else 1)
      ensures !ok ==> isLiked == old(isLiked) && likeCount == old(likeCount)
      ensures likeCount - (if isLiked then 1 else 0) == old(likeCount) - (if old(isLiked) then 1 else 0)
      ensures comments == old(comments) && commentCount == old(commentCount)
      ensures newComment == old(newComment)
    {
      m := if isLiked then Delete else Post;
      if ok {
        likeCount := if isLiked then likeCount - 1 else likeCount + 1;
        isLiked := !isLiked;
      }
    }

    /** `handleCommentSubmit`. `ok` is whether the request succeeded, `data`
        the parsed response body (None when it is empty), `now` the time stamp
        and `sessionName` the signed-in user's name. Returns whether a request
        was sent. */
    method HandleCommentSubmit(ok: bool, data: Option<string>, now: string,
                               sessionName: Option<string>) returns (sent: bool)
      requires Valid()
      modifies this
      ensures Valid()
      ensures sent <==> !Blank(old(newComment))
      ensures sent && ok && data.Some? ==>
        comments == old(comments) + [Comment(data.value, now, OrElse(sessionName, "You"))]
        && commentCount == old(commentCount) + 1 && newComment == ""
      ensures !(sent && ok && data.Some?) ==>
        comments == old(comments) && commentCount == old(commentCount)
        && newComment == old(newComment)
      ensures isLiked == old(isLiked) && likeCount == old(likeCount)
    {
      if Blank(newComment) {
        return false;
      }
      sent := true;
      if ok && data.Some? {
        comments := comments + [Comment(data.value, now, OrElse(sessionName, DefaultAuthor))];
        newComment := "";
        commentCount := commentCount + 1;
      }
    }
  }

  /** Two successful like toggles in a row bring the card back to where it was. */
  method LikeTwice(card: Card)
    requires card.Valid()
    modifies card
    ensures card.Valid()
    ensures card.isLiked == old(card.isLiked) && card.likeCount == old(card.likeCount)
  {
    var first := card.HandleLike(true);
    var second := card.HandleLike(true);
  }
}
