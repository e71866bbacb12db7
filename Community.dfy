/** The community board: posts with a title and a content, appended in order and shown newest first. */
module Community {
  import opened Options
  import opened Text

  /** A board post, stored as the object {"제목": title, "내용": content}. */
  datatype Post = Post(title: string, content: string)

  /** The content of a submission: the stripped long field, or, when that is blank, the stripped short field. */
  function PostContent(long: string, short: string): (content: string)
    ensures !AllSpace(long) ==> content == Strip(long)
    ensures AllSpace(long) ==> content == Strip(short)
    ensures content == [] <==> AllSpace(long) && AllSpace(short)
  {
    if Strip(long) != "" then Strip(long)
    else if Strip(short) != "" then Strip(short)
    else ""
  }

  /** The post a submission yields, or None when the stripped title or the content is empty. */
  function ValidatePost(title: string, long: string, short: string): (post: Option<Post>)
    ensures post.Some? <==> !AllSpace(title) && !(AllSpace(long) && AllSpace(short))
    ensures post.Some? ==> post.value.title == Strip(title) && post.value.content == PostContent(long, short)
    ensures post.Some? ==> post.value.title != [] && post.value.content != []
    ensures post.Some? ==> Trimmed(post.value.title) && Trimmed(post.value.content)
  {
    var content := PostContent(long, short);
    if Strip(title) != "" && content != "" then Some(Post(Strip(title), content)) else None
  }

  /** The board as listed: the posts in reverse order of submission. */
  function DisplayOrder(posts: seq<Post>): (shown: seq<Post>)
    ensures |shown| == |posts|
    ensures forall k :: 0 <= k < |shown| ==> shown[k] == posts[|posts| - 1 - k]
  {
    if posts == [] then [] else [posts[|posts| - 1]] + DisplayOrder(posts[..|posts| - 1])
  }

  /** An appended post is listed first, ahead of the board as it was listed before. */
  lemma NewestFirst(posts: seq<Post>, p: Post)
    ensures DisplayOrder(posts + [p]) == [p] + DisplayOrder(posts)
  {
    var s := DisplayOrder(posts + [p]);
    var t := [p] + DisplayOrder(posts);
    forall k | 0 <= k < |s| ensures s[k] == t[k] {
      if k > 0 {
        assert s[k] == (posts + [p])[|posts| - k] == posts[|posts| - k];
      }
    }
  }

  /** A blank title, whitespace-only content, and an accepted post. */
  lemma ValidatePostExamples()
    ensures ValidatePost("", "hello", "") == None
    ensures ValidatePost("T", "  ", "") == None
    ensures ValidatePost(" T ", "hello", "") == Some(Post("T", "hello"))
  {
    assert !AllSpace("hello") by { assert !IsSpace("hello"[0]); }
    assert !AllSpace(" T ") by { assert !IsSpace(" T "[1]); }
    StripIsMiddle(" ", "T", " ");
    StripIsMiddle("", "hello", "");
    assert "" + "hello" + "" == "hello";
    assert " " + "T" + " " == " T ";
  }
}
