/**
 * The session store behind the closet page: the wardrobe table, the wear log (착장 캘린더)
 * and the community board, changed in place by the page's actions and loaded from and
 * saved to files only when asked.
 */
module Session {
  import opened Options
  import opened Text
  import opened Wardrobe
  import opened Weather
  import opened Analysis
  import opened Community

  /** A calendar date as the date picker gives it. */
  datatype Date = Date(year: int, month: int, day: int)

  /** A wear-log row: the date and four fields copied by value, not a reference to a wardrobe row. */
  datatype WearEntry = WearEntry(date: Date, category: string, color: string, style: string, size: string)

  /** How the wear form was filled in: the wardrobe row picked ("옷장에서 선택") or four free-text fields ("직접 입력"). */
  datatype WearInput =
    | FromWardrobe(index: nat)
    | Manual(category: string, color: string, style: string, size: string)

  /** The contents of the three backing files; None when a file does not exist. */
  datatype Files = Files(wardrobe: Option<seq<StoredRow>>, calendar: Option<seq<WearEntry>>, community: Option<seq<Post>>)

  class Closet {
    var wardrobe: seq<Item>
    var wearLog: seq<WearEntry>
    var posts: seq<Post>

    /** A new session: every table empty. */
    constructor ()
      ensures wardrobe == [] && wearLog == [] && posts == []
    {
      wardrobe, wearLog, posts := [], [], [];
    }

    /** Login: each table whose file exists is replaced by its contents; the wardrobe's missing images become "". */
    method Load(files: Files)
      modifies this
      ensures wardrobe == if files.wardrobe.Some? then Normalise(files.wardrobe.value) else old(wardrobe)
      ensures wearLog == files.calendar.GetOr(old(wearLog))
      ensures posts == files.community.GetOr(old(posts))
    {
      if files.wardrobe.Some? {
        wardrobe := Normalise(files.wardrobe.value);
      }
      if files.calendar.Some? {
        wearLog := files.calendar.value;
      }
      if files.community.Some? {
        posts := files.community.value;
      }
    }

    /** Logout or "save": every table is written out whole; nothing in the session changes. */
    method Save() returns (files: Files)
      ensures files.wardrobe.Some? && files.calendar.Some? && files.community.Some?
      ensures Normalise(files.wardrobe.value) == wardrobe
      ensures files.wardrobe.value == Persist(wardrobe)
      ensures files.calendar.value == wearLog && files.community.value == posts
    {
      NormaliseAfterPersist(wardrobe);
      files := Files(Some(Persist(wardrobe)), Some(wearLog), Some(posts));
    }

    /** Adds one item at the end of the wardrobe; its image path is "" when no picture was uploaded. */
    method AddItem(category: string, color: string, style: string, size: string, uploadedPath: Option<string>)
      modifies this
      ensures |wardrobe| == |old(wardrobe)| + 1
      ensures wardrobe[..|old(wardrobe)|] == old(wardrobe)
      ensures wardrobe[|wardrobe| - 1] == Item(category, color, style, size, uploadedPath.GetOr(""))
      ensures uploadedPath.None? ==> wardrobe[|wardrobe| - 1].image == ""
      ensures wearLog == old(wearLog) && posts == old(posts)
    {
      var imagePath := "";
      if uploadedPath.Some? {
        imagePath := uploadedPath.value;
      }
      wardrobe := wardrobe + [Item(category, color, style, size, imagePath)];
    }

    /**
     * The weather page: nothing is shown for an empty wardrobe or an empty text; otherwise the
     * rows the lowered text's rule keeps, taken from a copy, so the wardrobe itself is untouched.
     */
    method Recommend(weather: string) returns (shown: Option<seq<Item>>)
      ensures shown.None? <==> wardrobe == [] || weather == []
      ensures shown.Some? ==> shown.value == Recommendation(wardrobe, Lower(weather))
      ensures shown.Some? ==> shown.value == Recommendation(wardrobe, weather)
    {
      if wardrobe == [] || weather == [] {
        shown := None;
      } else {
        var lowered := Lower(weather);
        RuleForLowered(weather);
        shown := Some(Recommendation(wardrobe, lowered));
      }
    }

    /** The analysis page: nothing for an empty wardrobe, otherwise the colour and style value counts. */
    method Analyse() returns (d: Option<Distribution>)
      ensures d.None? <==> wardrobe == []
      ensures d.Some? ==> d.value == Distribution(ValueCounts(Colors(wardrobe)), ValueCounts(Styles(wardrobe)))
      ensures d.Some? ==> Total(d.value.colors) == |wardrobe| && Total(d.value.styles) == |wardrobe|
    {
      if wardrobe == [] {
        d := None;
      } else {
        d := Some(Distribution(ValueCounts(Colors(wardrobe)), ValueCounts(Styles(wardrobe))));
      }
    }

    /**
     * The wear form: appends the date with the picked row's four fields or the four typed ones;
     * picking from an empty wardrobe appends nothing.
     */
    method LogWear(date: Date, input: WearInput) returns (logged: bool)
      requires input.FromWardrobe? && wardrobe != [] ==> input.index < |wardrobe|
      modifies this
      ensures wardrobe == old(wardrobe) && posts == old(posts)
      ensures logged <==> !(input.FromWardrobe? && wardrobe == [])
      ensures input.FromWardrobe? && logged ==>
        var it := wardrobe[input.index];
        wearLog == old(wearLog) + [WearEntry(date, it.category, it.color, it.style, it.size)]
      ensures input.Manual? ==>
        wearLog == old(wearLog) + [WearEntry(date, input.category, input.color, input.style, input.size)]
      ensures !logged ==> wearLog == old(wearLog)
    {
      var entry: Option<WearEntry>;
      if input.FromWardrobe? && wardrobe != [] {
        var it := wardrobe[input.index];
        entry := Some(WearEntry(date, it.category, it.color, it.style, it.size));
      } else if input.Manual? {
        entry := Some(WearEntry(date, input.category, input.color, input.style, input.size));
      } else {
        entry := None;
      }
      logged := entry.Some?;
      if entry.Some? {
        wearLog := wearLog + [entry.value];
      }
    }

    /** The post form: appends the validated post, or leaves the board unchanged when title or content is blank. */
    method SubmitPost(title: string, long: string, short: string) returns (accepted: bool)
      modifies this
      ensures accepted <==> !AllSpace(title) && !(AllSpace(long) && AllSpace(short))
      ensures accepted ==> posts == old(posts) + [Post(Strip(title), PostContent(long, short))]
      ensures accepted ==> Board()[0] == Post(Strip(title), PostContent(long, short))
      ensures !accepted ==> posts == old(posts)
      ensures wardrobe == old(wardrobe) && wearLog == old(wearLog)
    {
      var post := ValidatePost(title, long, short);
      accepted := post.Some?;
      if post.Some? {
        posts := posts + [post.value];
      }
    }

    /** The board as listed, newest first. */
    function Board(): (shown: seq<Post>)
      reads this
    {
      DisplayOrder(posts)
    }
  }

  /** Saving and then loading what was saved gives back the session's three tables. */
  method SaveThenLoad(c: Closet)
    modifies c
    ensures c.wardrobe == old(c.wardrobe) && c.wearLog == old(c.wearLog) && c.posts == old(c.posts)
  {
    var files := c.Save();
    c.Load(files);
  }

  /** A wear entry copied from a row keeps that row's values when the wardrobe later grows. */
  method WearEntryIsSnapshot()
  {
    var c := new Closet();
    c.AddItem("상의", "빨강", "캐주얼", "M", None);
    var logged := c.LogWear(Date(2024, 5, 1), FromWardrobe(0));
    assert logged;
    c.AddItem("아우터", "검정", "포멀", "L", Some("data/images/coat.png"));
    assert c.wearLog == [WearEntry(Date(2024, 5, 1), "상의", "빨강", "캐주얼", "M")];
    logged := c.LogWear(Date(2024, 5, 2), Manual("하의", "파랑", "스포티", "S"));
    assert |c.wearLog| == 2 && c.wearLog[1].category == "하의";
  }
}
