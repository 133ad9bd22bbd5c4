/**
 * The comment box under a post (components/Comments.tsx): a list seeded
 * with three static comments and a text area whose non-blank text is put at
 * the top of the list when posted.
 */
module Comments {
  import opened Text

  datatype Comment = Comment(id: int, author: string, avatar: string, date: string, text: string)

  const SelfAuthor: string := "You"
  const SelfAvatar: string := "https://ui-avatars.com/api/?name=You&background=6366f1&color=fff&size=150"
  const JustNow: string := "Just now"

  /** The static comments every post starts with. */
  const SeedComments: seq<Comment> := [
    Comment(1, "Sarah Chen",
      "https://images.unsplash.com/photo-1494790108755-2616b612b586?w=150&h=150&fit=crop&crop=face",
      "2 hours ago", "Great article! Really helped me understand the concepts better."),
    Comment(2, "Mike Johnson",
      "https://images.unsplash.com/photo-1507003211169-0a1dd7228f2d?w=150&h=150&fit=crop&crop=face",
      "4 hours ago", "Thanks for sharing this. The examples were really clear."),
    Comment(3, "Emily Rodriguez",
      "https://images.unsplash.com/photo-1438761681033-6461ffad8d80?w=150&h=150&fit=crop&crop=face",
      "6 hours ago", "I've bookmarked this for future reference. Very helpful!")
  ]

  /** The text being typed and the comments shown, newest first. */
  datatype Thread = Thread(newComment: string, commentList: seq<Comment>)

  /**
   * `handleSubmit`: blank text (only whitespace) changes nothing; otherwise a
   * comment by "You" with the text as typed goes first and the text area is
   * cleared.
   */
  function Submitted(t: Thread, now: int): (r: Thread)
    ensures AllWhitespace(t.newComment) ==> r == t
    ensures !AllWhitespace(t.newComment) ==>
      r.newComment == "" && |r.commentList| == |t.commentList| + 1 && r.commentList[1..] == t.commentList &&
      r.commentList[0] == Comment(now, SelfAuthor, SelfAvatar, JustNow, t.newComment)
  {
    if Trim(t.newComment) == "" then t
    else Thread("", [Comment(now, SelfAuthor, SelfAvatar, JustNow, t.newComment)] + t.commentList)
  }

  /** Pressing the button again right after posting adds nothing: the text area is empty. */
  lemma SubmitTwiceAddsOnce(t: Thread, now: int, later: int)
    ensures Submitted(Submitted(t, now), later) == Submitted(t, now)
  {
    if !AllWhitespace(t.newComment) {
      assert AllWhitespace(Submitted(t, now).newComment);
    }
  }

  /** Posting never removes or reorders comments: the earlier list is what follows the new ones. */
  lemma SubmitKeepsHistory(t: Thread, now: int)
    ensures var r := Submitted(t, now);
      |r.commentList| >= |t.commentList| && r.commentList[|r.commentList| - |t.commentList|..] == t.commentList
  {
  }

  /** The comment box's component state. */
  class CommentBox {
    var newComment: string
    var commentList: seq<Comment>

    constructor()
      ensures newComment == "" && commentList == SeedComments && |commentList| == 3
    {
      newComment := "";
      commentList := SeedComments;
    }

    /** The text area's `onChange`. */
    method Type(text: string)
      modifies this
      ensures newComment == text && commentList == old(commentList)
    {
      newComment := text;
    }

    /** "Post Comment", with `Date.now()` as a parameter. */
    method Submit(now: int)
      modifies this
      ensures Thread(newComment, commentList) == Submitted(old(Thread(newComment, commentList)), now)
    {
      if Trim(newComment) != "" {
        commentList := [Comment(now, SelfAuthor, SelfAvatar, JustNow, newComment)] + commentList;
        newComment := "";
      }
    }
  }
}
