/**
 The right-hand footer of a video card: the like and save counters with
 their optimistic +1, the clipboard request on saving, and the share popup
 flag.
 */
module Footer {
  import opened Js

  /** `count.endsWith("k")`, lower case only. */
  predicate EndsWithLowerK(s: string)
  {
    s != [] && s[|s| - 1] == 'k'
  }

  /** `parseLikesCount(count)`: a number is returned as it is; a string ending in
      "k" goes through `parseFloat`, which is not modelled (None); any other
      string goes through `parseInt`. */
  function ParseLikesCount(count: NumberOrString): (r: Option<JsNumber>)
    ensures count.Number? ==> r == Some(Int(count.n))
    ensures count.Text? && !EndsWithLowerK(count.s) ==> r == Some(ParseInt(count.s))
    ensures r == None <==> count.Text? && EndsWithLowerK(count.s)
  {
    match count
    case Number(n) => Some(Int(n))
    case Text(s) => if EndsWithLowerK(s) then None else Some(ParseInt(s))
  }

  /** `formatLikesCount(count)`: a count below 10000, and NaN, are shown as they
      are; the compact "k" form uses `toFixed` and is not modelled (None). */
  function FormatLikesCount(count: JsNumber): (r: Option<JsNumber>)
    ensures count.NaN? ==> r == Some(NaN)
    ensures count.Int? && count.value < 10000 ==> r == Some(count)
    ensures r == None <==> count.Int? && count.value >= 10000
  {
    match count
    case NaN => Some(NaN)
    case Int(n) => if n >= 10000 then None else Some(count)
  }

  /** `n + 1` on a JavaScript number; NaN absorbs it. */
  function Bump(n: JsNumber, amount: int): JsNumber
  {
    match n
    case NaN => NaN
    case Int(v) => Int(v + amount)
  }

  /** `displayedLikes`: the parsed count, one more when liked, then formatted. */
  function DisplayedLikes(likes: NumberOrString, liked: bool): (r: Option<JsNumber>)
    ensures forall p :: ParseLikesCount(likes) == Some(Int(p)) ==>
              r == if p + (if liked then 1 else 0) < 10000
                   then Some(Int(p + (if liked then 1 else 0))) else None
    ensures ParseLikesCount(likes) == Some(NaN) ==> r == Some(NaN)
    ensures ParseLikesCount(likes).None? ==> r.None?
  {
    match ParseLikesCount(likes)
    case None => None
    case Some(n) => FormatLikesCount(Bump(n, if liked then 1 else 0))
  }

  /** A like adds exactly one to what is displayed while the count stays below
      the compact range. */
  lemma LikeAddsOne(likes: NumberOrString, p: int)
    requires ParseLikesCount(likes) == Some(Int(p)) && p + 1 < 10000
    ensures DisplayedLikes(likes, false) == Some(Int(p))
    ensures DisplayedLikes(likes, true) == Some(Int(p + 1))
  {
  }

  /** The sample feed gives one video the likes "13.4K": its upper-case K is not
      the "k" the parser looks for, so `parseInt` reads the leading 13. */
  lemma UpperCaseKiloParsesLeadingDigits()
    ensures ParseLikesCount(Text("13.4K")) == Some(Int(13))
    ensures DisplayedLikes(Text("13.4K"), false) == Some(Int(13))
    ensures DisplayedLikes(Text("13.4K"), true) == Some(Int(14))
  {
    UpperCaseKiloText();
    assert !EndsWithLowerK("13.4K");
  }

  /** `parseInt("13.4K")` stops at the decimal point. */
  lemma UpperCaseKiloText()
    ensures ParseInt("13.4K") == Int(13)
  {
    assert "13.4K" == "13" + ".4K";
    ParseIntLeadingDigits("13", ".4K");
    assert DigitsValue("13", 10) == 13 by {
      assert "13"[..1] == "1";
    }
  }

  /** `saved ? saves + 1 : saves`: JavaScript's `+` adds to a number and appends
      "1" to a string. */
  function DisplayedSaves(saves: NumberOrString, saved: bool): (r: NumberOrString)
    ensures !saved ==> r == saves
    ensures saved && saves.Number? ==> r == Number(saves.n + 1)
    ensures saved && saves.Text? ==> r == Text(saves.s + "1")
  {
    if !saved then saves
    else match saves
      case Number(n) => Number(n + 1)
      case Text(s) => Text(s + "1")
  }

  class FooterRight {
    const likes: NumberOrString
    const saves: NumberOrString
    const videoUrl: Option<string>
    var liked: bool
    var saved: bool
    var showSharePopup: bool
    /** The texts handed to `navigator.clipboard.writeText`, oldest first. */
    var clipboardWrites: seq<string>

    constructor (likes: NumberOrString, saves: NumberOrString, videoUrl: Option<string>)
      ensures this.likes == likes && this.saves == saves && this.videoUrl == videoUrl
      ensures !liked && !saved && !showSharePopup && clipboardWrites == []
    {
      this.likes := likes;
      this.saves := saves;
      this.videoUrl := videoUrl;
      liked := false;
      saved := false;
      showSharePopup := false;
      clipboardWrites := [];
    }

    /** The like counter as rendered. */
    function ShownLikes(): Option<JsNumber>
      reads this
    {
      DisplayedLikes(likes, liked)
    }

    /** The save counter as rendered. */
    function ShownSaves(): NumberOrString
      reads this
    {
      DisplayedSaves(saves, saved)
    }

    method LikeClick()
      modifies this
      ensures liked == !old(liked)
      ensures saved == old(saved) && showSharePopup == old(showSharePopup)
      ensures clipboardWrites == old(clipboardWrites)
    {
      liked := !liked;
    }

    /** `handleSaveClick`: flips `saved` and, on becoming saved with a truthy URL,
        asks for the URL to be copied to the clipboard. */
    method SaveClick()
      modifies this
      ensures saved == !old(saved)
      ensures clipboardWrites == old(clipboardWrites) +
                (if saved && Truthy(videoUrl) then [videoUrl.value] else [])
      ensures liked == old(liked) && showSharePopup == old(showSharePopup)
    {
      var newSaved := !saved;
      saved := newSaved;
      if newSaved && videoUrl.Some? && videoUrl.value != "" {
        clipboardWrites := clipboardWrites + [videoUrl.value];
      }
    }

    method ShareClick()
      modifies this
      ensures showSharePopup
      ensures liked == old(liked) && saved == old(saved) && clipboardWrites == old(clipboardWrites)
    {
      showSharePopup := true;
    }

    /** The overlay or the close button of the popup. */
    method CloseSharePopup()
      modifies this
      ensures !showSharePopup
      ensures liked == old(liked) && saved == old(saved) && clipboardWrites == old(clipboardWrites)
    {
      showSharePopup := false;
    }

    /** One of the share targets of the popup. */
    method ShareOption(platform: string)
      modifies this
      ensures !showSharePopup
      ensures liked == old(liked) && saved == old(saved) && clipboardWrites == old(clipboardWrites)
    {
      showSharePopup := false;
    }
  }

  /** Two like clicks restore the like state and the displayed count. */
  method LikeTwice(f: FooterRight)
    modifies f
    ensures f.liked == old(f.liked) && f.ShownLikes() == old(f.ShownLikes())
  {
    f.LikeClick();
    f.LikeClick();
  }

  /** Two save clicks restore the save state; of the two, only the click that
      saves can ask for a clipboard copy. */
  method SaveTwice(f: FooterRight)
    modifies f
    ensures f.saved == old(f.saved) && f.ShownSaves() == old(f.ShownSaves())
    ensures f.clipboardWrites == old(f.clipboardWrites) +
              (if Truthy(f.videoUrl) then [f.videoUrl.value] else [])
  {
    f.SaveClick();
    f.SaveClick();
  }
}
