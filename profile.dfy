/**
 The profile panel: hashtag extraction and the bio text derived from a video
 description, the integer branch of the stats formatter, the keyboard rule
 that closes the panel, and the follow and tab state.
 */
module Profile {
  import opened Js

  // ---------------------------------------------------------------------------
  // Matches of the regular expression /#\w+/g

  /** The half-open range [start, end) of one match. */
  datatype Span = Span(start: nat, end: nat)

  /** A match can begin at `i`: a `#` followed by a word character. */
  predicate TagStartsAt(s: string, i: nat)
  {
    i + 1 < |s| && s[i] == '#' && IsWordChar(s[i + 1])
  }

  /** `s` never has a `#` immediately followed by a word character. */
  predicate NoTagStart(s: string)
  {
    forall i :: 0 <= i < |s| ==> !TagStartsAt(s, i)
  }

  /** `sp` is a whole, greedy match of `#\w+` in `s`. */
  predicate IsMatch(s: string, sp: Span)
  {
    sp.start + 2 <= sp.end <= |s| && s[sp.start] == '#' &&
    (forall i :: sp.start < i < sp.end ==> IsWordChar(s[i])) &&
    (sp.end == |s| || !IsWordChar(s[sp.end]))
  }

  /** The first index at or after `j` that holds no word character. */
  function WordRunEnd(s: string, j: nat): (k: nat)
    requires j <= |s|
    ensures j <= k <= |s|
    ensures forall i :: j <= i < k ==> IsWordChar(s[i])
    ensures k == |s| || !IsWordChar(s[k])
    decreases |s| - j
  {
    if j < |s| && IsWordChar(s[j]) then WordRunEnd(s, j + 1) else j
  }

  /** The text from `i` on that lies outside `spans`, the pieces in order; it
      is cut short where a span is out of order or out of bounds, which the
      spans of `MatchesFrom` never are. */
  function Between(s: string, i: nat, spans: seq<Span>): string
    decreases |spans|
  {
    if spans == [] then (if i <= |s| then s[i..] else [])
    else if i <= spans[0].start <= spans[0].end <= |s| then
      s[i..spans[0].start] + Between(s, spans[0].end, spans[1..])
    else []
  }

  /** The matches of a global search for /#\w+/ that starts at index `i`: each
      attempt that fails moves on by one character, each match resumes the
      search at its end. The matches are whole and greedy, lie left to right
      without overlapping, and there are none exactly when no `#` followed by a
      word character occurs from `i` on (that every such `#` lies in a match is
      `MatchesCoverEveryTag`). */
  function MatchesFrom(s: string, i: nat): (r: seq<Span>)
    requires i <= |s|
    ensures forall j :: 0 <= j < |r| ==> IsMatch(s, r[j]) && i <= r[j].start
    ensures forall j, k :: 0 <= j < k < |r| ==> r[j].end <= r[k].start
    ensures r == [] <==> forall p :: i <= p < |s| ==> !TagStartsAt(s, p)
    decreases |s| - i
  {
    if i == |s| then []
    else if TagStartsAt(s, i) then
      var k := WordRunEnd(s, i + 1);
      [Span(i, k)] + MatchesFrom(s, k)
    else MatchesFrom(s, i + 1)
  }

  /** No `#` followed by a word character is skipped: the one at `p` lies in a
      match of the search that starts at `i`. */
  lemma {:induction false} MatchesCoverEveryTag(s: string, i: nat, p: nat)
    requires i <= p < |s| && TagStartsAt(s, p)
    ensures var r := MatchesFrom(s, i);
            exists j :: 0 <= j < |r| && r[j].start <= p < r[j].end
    decreases |s| - i
  {
    if TagStartsAt(s, i) {
      var k := WordRunEnd(s, i + 1);
      var rest := MatchesFrom(s, k);
      assert MatchesFrom(s, i) == [Span(i, k)] + rest;
      if k <= p {
        MatchesCoverEveryTag(s, k, p);
      }
      CoveredByCons(Span(i, k), rest, p);
    } else {
      assert MatchesFrom(s, i) == MatchesFrom(s, i + 1);
      MatchesCoverEveryTag(s, i + 1, p);
    }
  }

  /** A position inside the first span or inside a later one is inside some span. */
  lemma CoveredByCons(first: Span, rest: seq<Span>, p: nat)
    requires (first.start <= p < first.end) || exists j :: 0 <= j < |rest| && rest[j].start <= p < rest[j].end
    ensures var r := [first] + rest;
            exists j :: 0 <= j < |r| && r[j].start <= p < r[j].end
  {
    var r := [first] + rest;
    if first.start <= p < first.end {
      assert r[0] == first;
    } else {
      var j :| 0 <= j < |rest| && rest[j].start <= p < rest[j].end;
      assert r[j + 1] == rest[j];
    }
  }

  /** `s.replace(/#\w+/g, "")` from index `i` on: the characters no match covers
      (that they are the text between the matches is `RemoveTagsIsBetween`). */
  function RemoveTagsFrom(s: string, i: nat): (r: string)
    requires i <= |s|
    ensures |r| <= |s| - i
    decreases |s| - i
  {
    if i == |s| then []
    else if TagStartsAt(s, i) then RemoveTagsFrom(s, WordRunEnd(s, i + 1))
    else [s[i]] + RemoveTagsFrom(s, i + 1)
  }

  /** Deleting every match leaves the text between consecutive matches, in order. */
  lemma {:induction false} RemoveTagsIsBetween(s: string, i: nat)
    requires i <= |s|
    ensures RemoveTagsFrom(s, i) == Between(s, i, MatchesFrom(s, i))
    decreases |s| - i
  {
    if i == |s| {
    } else if TagStartsAt(s, i) {
      var k := WordRunEnd(s, i + 1);
      var r := MatchesFrom(s, i);
      assert r == [Span(i, k)] + MatchesFrom(s, k);
      assert r[1..] == MatchesFrom(s, k);
      RemoveTagsIsBetween(s, k);
    } else {
      RemoveTagsIsBetween(s, i + 1);
      BetweenCons(s, i, MatchesFrom(s, i + 1));
    }
  }

  /** A character before every span is the first piece's first character. */
  lemma BetweenCons(s: string, i: nat, spans: seq<Span>)
    requires i < |s| && (spans == [] || i + 1 <= spans[0].start <= spans[0].end <= |s|)
    ensures Between(s, i, spans) == [s[i]] + Between(s, i + 1, spans)
  {
    if spans == [] {
      assert s[i..] == [s[i]] + s[i + 1..];
    } else {
      var st := spans[0].start;
      var tail := Between(s, spans[0].end, spans[1..]);
      assert Between(s, i, spans) == s[i..st] + tail;
      assert Between(s, i + 1, spans) == s[i + 1..st] + tail;
      assert s[i..st] == [s[i]] + s[i + 1..st];
    }
  }

  /** `extractHashtags(desc)`: the text of every match of /#\w+/g, in order, and
      nothing for an absent or empty description. */
  function ExtractHashtags(desc: Option<string>): (tags: seq<string>)
    ensures !Truthy(desc) ==> tags == []
    ensures Truthy(desc) ==> |tags| == |MatchesFrom(desc.value, 0)|
    ensures Truthy(desc) ==> forall j :: 0 <= j < |tags| ==>
              var sp := MatchesFrom(desc.value, 0)[j];
              IsMatch(desc.value, sp) && tags[j] == desc.value[sp.start..sp.end]
    ensures forall j :: 0 <= j < |tags| ==> IsHashtag(tags[j])
  {
    if !Truthy(desc) then []
    else
      var s := desc.value;
      var spans := MatchesFrom(s, 0);
      seq(|spans|, j requires 0 <= j < |spans| => s[spans[j].start..spans[j].end])
  }

  /** Every `#` followed by a word character starts a tag that is extracted
      whole: the `#` and the full word run after it. */
  lemma EveryTagIsExtracted(s: string, p: nat)
    requires TagStartsAt(s, p)
    ensures s[p..WordRunEnd(s, p + 1)] in ExtractHashtags(Some(s))
  {
    var spans := MatchesFrom(s, 0);
    var tags := ExtractHashtags(Some(s));
    MatchesCoverEveryTag(s, 0, p);
    var j :| 0 <= j < |spans| && spans[j].start <= p < spans[j].end;
    var sp := spans[j];
    assert IsMatch(s, sp);
    var k := WordRunEnd(s, p + 1);
    assert sp.start == p && sp.end == k;
    assert tags[j] == s[p..k];
  }

  /** `#` followed by one or more word characters. */
  predicate IsHashtag(t: string)
  {
    |t| >= 2 && t[0] == '#' && forall i :: 1 <= i < |t| ==> IsWordChar(t[i])
  }

  /** The bio text: "" for an absent or empty description, otherwise the text
      between the hashtags of the description, trimmed. It has no white space
      at either end and no `#` followed by a word character. */
  function BioText(desc: Option<string>): (bio: string)
    ensures !Truthy(desc) ==> bio == ""
    ensures Truthy(desc) ==> bio == Trim(Between(desc.value, 0, MatchesFrom(desc.value, 0)))
    ensures bio != [] ==> !IsWhiteSpace(bio[0]) && !IsWhiteSpace(bio[|bio| - 1])
    ensures NoTagStart(bio)
  {
    if !Truthy(desc) then ""
    else
      var stripped := RemoveTagsFrom(desc.value, 0);
      RemoveTagsIsBetween(desc.value, 0);
      RemoveTagsLeavesNoTagStart(desc.value, 0);
      NoTagStartTrim(stripped);
      Trim(stripped)
  }

  /** What follows a non-word position in the stripped text is not a word
      character either. */
  lemma {:induction false} RemoveTagsFirstNotWord(s: string, i: nat)
    requires i <= |s| && (i == |s| || !IsWordChar(s[i]))
    ensures var r := RemoveTagsFrom(s, i); r == [] || !IsWordChar(r[0])
    decreases |s| - i
  {
    if i < |s| && TagStartsAt(s, i) {
      RemoveTagsFirstNotWord(s, WordRunEnd(s, i + 1));
    }
  }

  /** Deleting greedy matches cannot create a new `#` followed by a word character. */
  lemma {:induction false} RemoveTagsLeavesNoTagStart(s: string, i: nat)
    requires i <= |s|
    ensures NoTagStart(RemoveTagsFrom(s, i))
    decreases |s| - i
  {
    if i == |s| {
    } else if TagStartsAt(s, i) {
      RemoveTagsLeavesNoTagStart(s, WordRunEnd(s, i + 1));
    } else {
      var rest := RemoveTagsFrom(s, i + 1);
      RemoveTagsLeavesNoTagStart(s, i + 1);
      if s[i] == '#' {
        RemoveTagsFirstNotWord(s, i + 1);
      }
      var r := [s[i]] + rest;
      forall p | 0 <= p < |r| ensures !TagStartsAt(r, p) {
        if p > 0 {
          assert r[p] == rest[p - 1];
          assert p + 1 < |r| ==> r[p + 1] == rest[p];
          assert !TagStartsAt(rest, p - 1);
        }
      }
    }
  }

  /** Trimming keeps a contiguous part of the text, which keeps `NoTagStart`. */
  lemma NoTagStartTrim(s: string)
    requires NoTagStart(s)
    ensures NoTagStart(Trim(s))
  {
    var t := TrimStart(s);
    NoTagStartSuffix(s, |s| - |t|);
    NoTagStartPrefix(t, |TrimEnd(t)|);
  }

  lemma NoTagStartSuffix(s: string, d: nat)
    requires NoTagStart(s) && d <= |s|
    ensures NoTagStart(s[d..])
  {
    var t := s[d..];
    forall p | 0 <= p < |t| ensures !TagStartsAt(t, p) {
      assert !TagStartsAt(s, p + d);
    }
  }

  lemma NoTagStartPrefix(s: string, n: nat)
    requires NoTagStart(s) && n <= |s|
    ensures NoTagStart(s[..n])
  {
    var r := s[..n];
    forall p | 0 <= p < |r| ensures !TagStartsAt(r, p) {
      assert !TagStartsAt(s, p);
    }
  }

  /** A short description: its hashtags come out in order and the bio keeps the rest. */
  lemma SampleHashtags()
    ensures ExtractHashtags(Some("nvm #ai")) == ["#ai"]
  {
    SampleMatches();
    assert "nvm #ai"[4..7] == "#ai";
  }

  lemma SampleMatches()
    ensures MatchesFrom("nvm #ai", 0) == [Span(4, 7)]
  {
    var s := "nvm #ai";
    assert WordRunEnd(s, 5) == 7;
    assert MatchesFrom(s, 4) == [Span(4, 7)];
    assert MatchesFrom(s, 3) == [Span(4, 7)];
    assert MatchesFrom(s, 2) == [Span(4, 7)];
    assert MatchesFrom(s, 1) == [Span(4, 7)];
  }

  lemma SampleBioText()
    ensures BioText(Some("nvm #ai")) == "nvm"
  {
    SampleRemoveTags();
    SampleTrim();
  }

  lemma SampleRemoveTags()
    ensures RemoveTagsFrom("nvm #ai", 0) == "nvm "
  {
    var s := "nvm #ai";
    assert WordRunEnd(s, 5) == 7;
    assert RemoveTagsFrom(s, 4) == "";
    assert RemoveTagsFrom(s, 3) == " ";
    assert RemoveTagsFrom(s, 2) == "m ";
    assert RemoveTagsFrom(s, 1) == "vm ";
  }

  lemma SampleTrim()
    ensures Trim("nvm ") == "nvm"
  {
    assert TrimStart("nvm ") == "nvm ";
    assert TrimEnd("nvm") == "nvm";
  }

  // ---------------------------------------------------------------------------
  // formatNumber

  /** `formatNumber(n)` for an integer `n`: below 1000 the plain decimal string;
      the compact "K" and "M" forms use floating-point `toFixed` and are not
      modelled (None). */
  function FormatNumber(n: int): (r: Option<string>)
    ensures n < 1000 <==> r.Some?
    ensures r.Some? ==> r.value == DecimalString(n) && ParseInt(r.value) == Int(n)
  {
    if n >= 1000 then None
    else
      ParseIntOfDecimalString(n);
      Some(DecimalString(n))
  }

  // ---------------------------------------------------------------------------
  // Keyboard, follow and tabs

  /** Whether a keydown with `key` calls `onClose`: the listener is attached only
      while the panel is visible, and reacts to ArrowLeft and Escape. */
  predicate ClosesOn(isVisible: bool, key: string)
  {
    isVisible && (key == "ArrowLeft" || key == "Escape")
  }

  datatype Tab = Videos | Liked | Saved

  function TabName(t: Tab): (name: string)
    ensures name in {"videos", "liked", "saved"}
  {
    match t
    case Videos => "videos"
    case Liked => "liked"
    case Saved => "saved"
  }

  class UserProfile {
    var isVisible: bool
    var activeTab: string
    var isFollowing: bool
    /** How many times `onClose` has been called. */
    var closeCalls: nat

    ghost predicate Valid()
      reads this
    {
      activeTab in {"videos", "liked", "saved"}
    }

    constructor (isVisible: bool)
      ensures Valid() && this.isVisible == isVisible
      ensures activeTab == "videos" && !isFollowing && closeCalls == 0
    {
      this.isVisible := isVisible;
      activeTab := "videos";
      isFollowing := false;
      closeCalls := 0;
    }

    /** A new `isVisible` prop: the effect attaches the key listener when it is
        true and detaches it otherwise. */
    method SetVisible(visible: bool)
      modifies this
      ensures isVisible == visible && activeTab == old(activeTab)
      ensures isFollowing == old(isFollowing) && closeCalls == old(closeCalls)
    {
      isVisible := visible;
    }

    /** A keydown on the window. */
    method KeyDown(key: string)
      modifies this
      ensures closeCalls == old(closeCalls) + (if ClosesOn(isVisible, key) then 1 else 0)
      ensures isVisible == old(isVisible) && activeTab == old(activeTab) && isFollowing == old(isFollowing)
    {
      if isVisible {
        if key == "ArrowLeft" || key == "Escape" {
          closeCalls := closeCalls + 1;
        }
      }
    }

    /** The follow button. */
    method ToggleFollow()
      modifies this
      ensures isFollowing == !old(isFollowing)
      ensures isVisible == old(isVisible) && activeTab == old(activeTab) && closeCalls == old(closeCalls)
    {
      isFollowing := !isFollowing;
    }

    /** One of the three tab buttons. */
    method SelectTab(t: Tab)
      modifies this
      ensures Valid() && activeTab == TabName(t)
      ensures isVisible == old(isVisible) && isFollowing == old(isFollowing) && closeCalls == old(closeCalls)
    {
      activeTab := TabName(t);
    }
  }

  /** Clicking follow twice restores the follow state. */
  method FollowTwice(p: UserProfile)
    modifies p
    ensures p.isFollowing == old(p.isFollowing) && p.activeTab == old(p.activeTab)
  {
    p.ToggleFollow();
    p.ToggleFollow();
  }
}
