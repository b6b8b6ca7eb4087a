/**
 * What the client reads from what the server writes: the participant count
 * in a join or leave announcement survives the trip through the client's
 * `split`/`parseInt` extraction, under a condition on the display name
 * that the server does not enforce; and which server messages the client
 * styles as notifications.
 */
module WireRoundTrip {
  import opened Wrappers
  import opened Text
  import Decimal
  import JsText
  import Wire
  import ChatRoom

  /**
   * The separator first occurs where it was put when nothing in the text
   * before it, run into the label, spells the separator.
   */
  lemma SeparatorFirstAt(pre: string, rest: string)
    requires !Contains(pre + Wire.CountLabel, Wire.CountSeparator)
    ensures FindFrom(pre + Wire.CountSeparator + rest, Wire.CountSeparator, 0) == Some(|pre|)
  {
    var sep, marker := Wire.CountSeparator, Wire.CountLabel;
    var m := pre + sep + rest;
    var p := |pre|;
    assert OccursAt(m, sep, p) by {
      assert m[p..p + |sep|] == sep;
    }
    forall i: nat | i < p
      ensures !OccursAt(m, sep, i)
    {
      var x := pre + marker;
      if OccursAt(m, sep, i) {
        assert sep == marker + " ";
        assert x[i..i + |sep|] == m[i..i + |sep|];
        ContainsAt(x, sep, i);
      }
    }
    FindFirst(m, sep, p);
  }

  /** A run of digits has no separator in it, so splitting leaves it whole. */
  lemma DigitsStayWhole(d: string)
    requires Decimal.AllDigits(d)
    ensures JsText.Split(d, Wire.CountSeparator) == [d]
  {
    var sep := Wire.CountSeparator;
    forall i: nat
      ensures !OccursAt(d, sep, i)
    {
      if i + |sep| <= |d| {
        assert d[i..i + |sep|][0] == d[i];
        assert Decimal.IsDigit(d[i]);
      }
    }
  }

  /**
   * A message made of some text, the separator and a count yields that
   * count, provided the separator first occurs where it was put.
   */
  lemma CountAfterSeparator(pre: string, n: nat)
    requires !Contains(pre + Wire.CountLabel, Wire.CountSeparator)
    ensures ChatRoom.ExtractCount(pre + Wire.CountSeparator + Decimal.Format(n)) == Some(n)
  {
    var sep, d := Wire.CountSeparator, Decimal.Format(n);
    var m := pre + sep + d;
    MarkerPresent(pre, d);
    SeparatorFirstAt(pre, d);
    JsText.SplitFirst(m, sep, |pre|);
    assert m[|pre| + |sep|..] == d;
    DigitsStayWhole(d);
    ChatRoom.ExtractSecondPiece(m);
    JsText.ParseIntFormat(n);
  }

  /** The marker is present wherever the separator was put. */
  lemma MarkerPresent(pre: string, rest: string)
    ensures Contains(pre + Wire.CountSeparator + rest, Wire.CountLabel)
  {
    var m := pre + Wire.CountSeparator + rest;
    assert m[|pre|..|pre| + |Wire.CountLabel|] == Wire.CountLabel;
    ContainsAt(m, Wire.CountLabel, |pre|);
  }


  /** The phrases of the two announcements contain no capital U. */
  lemma PhraseHasNoU(phrase: string, k: nat)
    requires phrase == " joined the chat. " || phrase == " left the chat. "
    requires k < |phrase|
    ensures phrase[k] != 'U'
  {
  }

  /** Inside the separator, no space is followed by the first letter of a phrase. */
  lemma SeparatorSpaces(j: nat)
    requires 0 < j < |Wire.CountSeparator| - 1
    ensures Wire.CountSeparator[j] != ' ' || (Wire.CountSeparator[j + 1] != 'j' && Wire.CountSeparator[j + 1] != 'l')
  {
  }

  /**
   * When `name` followed by a space does not contain the separator, the
   * separator does not occur at any position of the announcement text
   * before the count, run into the marker.
   */
  lemma AnnouncementPrefixMisses(name: string, phrase: string, i: nat)
    requires phrase == " joined the chat. " || phrase == " left the chat. "
    requires !Contains(name + " ", Wire.CountSeparator)
    ensures !OccursAt(name + phrase + Wire.CountLabel, Wire.CountSeparator, i)
  {
    var sep := Wire.CountSeparator;
    var x := name + phrase + Wire.CountLabel;
    if i + |sep| <= |x| {
      if i + |sep| <= |name| + 1 {
        assert !OccursAt(name + " ", sep, i);
        assert (name + " ")[i..i + |sep|] == x[i..i + |sep|];
      } else if i >= |name| {
        assert x[i..i + |sep|][0] == x[i] == phrase[i - |name|];
        PhraseHasNoU(phrase, i - |name|);
      } else {
        var j := |name| - i;
        assert x[i..i + |sep|][j] == x[|name|] == ' ';
        assert x[i..i + |sep|][j + 1] == x[|name| + 1] == phrase[1];
        SeparatorSpaces(j);
      }
    }
  }

  /**
   * When `name` followed by a space does not contain the separator, neither
   * does the announcement text before the count, run into the marker.
   */
  lemma AnnouncementPrefixClean(name: string, phrase: string)
    requires phrase == " joined the chat. " || phrase == " left the chat. "
    requires !Contains(name + " ", Wire.CountSeparator)
    ensures !Contains(name + phrase + Wire.CountLabel, Wire.CountSeparator)
  {
    var x := name + phrase + Wire.CountLabel;
    if Contains(x, Wire.CountSeparator) {
      AnnouncementPrefixMisses(name, phrase, FindFrom(x, Wire.CountSeparator, 0).value);
      assert false;
    }
  }

  /**
   * The client reads back the count of every join and leave announcement,
   * for every display name that, followed by a space, does not contain the
   * separator.
   */
  lemma AnnouncementCountRoundTrip(name: string, n: nat)
    requires !Contains(name + " ", Wire.CountSeparator)
    ensures ChatRoom.ExtractCount(Wire.JoinAnnouncement(name, n)) == Some(n)
    ensures ChatRoom.ExtractCount(Wire.LeaveAnnouncement(name, n)) == Some(n)
    ensures ChatRoom.NextUserCount(0, Wire.JoinAnnouncement(name, n)) == n
  {
    AnnouncementPrefixClean(name, " joined the chat. ");
    CountAfterSeparator(name + " joined the chat. ", n);
    AnnouncementPrefixClean(name, " left the chat. ");
    CountAfterSeparator(name + " left the chat. ", n);
  }

  /**
   * A name that does not contain the separator is not enough: a name ending
   * in the marker puts the first separator at the very start, and the piece
   * the client parses is the phrase, so the count is lost.
   */
  lemma NameEndingInLabelLosesCount(name: string, n: nat)
    requires name == Wire.CountLabel
    ensures !Contains(name, Wire.CountSeparator)
    ensures ChatRoom.ExtractCount(Wire.JoinAnnouncement(name, n)) == None
  {
    var sep, d := Wire.CountSeparator, Decimal.Format(n);
    var m := Wire.JoinAnnouncement(name, n);
    var phrase := "joined the chat. ";
    var rest := phrase + sep + d;
    LabelNameAnnouncement(name, n);
    JsText.SplitFirst(m, sep, 0);
    PhraseBeforeSeparator(d);
    JsText.SplitFirst(rest, sep, |phrase|);
    assert JsText.Split(m, sep)[1] == rest[..|phrase|] == phrase;
    ChatRoom.ExtractSecondPiece(m);
    PhraseIsNaN();
  }

  /** The phrase parses to NaN: it starts with a letter. */
  lemma PhraseIsNaN()
    ensures JsText.ParseInt("joined the chat. ") == None
  {
    JsText.ParseIntNonNumericStart("joined the chat. ");
  }

  /** The announcement for that name starts with the separator and has the marker. */
  lemma LabelNameAnnouncement(name: string, n: nat)
    requires name == Wire.CountLabel
    ensures !Contains(name, Wire.CountSeparator)
    ensures Wire.JoinAnnouncement(name, n)[|Wire.CountSeparator|..]
         == "joined the chat. " + Wire.CountSeparator + Decimal.Format(n)
    ensures FindFrom(Wire.JoinAnnouncement(name, n), Wire.CountSeparator, 0) == Some(0)
    ensures Contains(Wire.JoinAnnouncement(name, n), Wire.CountLabel)
  {
    var sep := Wire.CountSeparator;
    var m := Wire.JoinAnnouncement(name, n);
    assert m == sep + ("joined the chat. " + sep + Decimal.Format(n));
    assert OccursAt(m, sep, 0) by {
      assert m[0..|sep|] == sep;
    }
    FindFirst(m, sep, 0);
    ContainsAt(m, Wire.CountLabel, 0) by {
      assert m[0..|Wire.CountLabel|] == Wire.CountLabel;
    }
  }

  /** In the rest of that announcement the separator first occurs after the phrase. */
  lemma PhraseBeforeSeparator(d: string)
    ensures FindFrom("joined the chat. " + Wire.CountSeparator + d, Wire.CountSeparator, 0) == Some(17)
  {
    var sep := Wire.CountSeparator;
    var rest := "joined the chat. " + sep + d;
    assert OccursAt(rest, sep, 17) by {
      assert rest[17..17 + |sep|] == sep;
    }
    forall i | 0 <= i < 17
      ensures !OccursAt(rest, sep, i)
    {
      assert rest[i..i + |sep|][0] == rest[i] != 'U';
    }
    FindFirst(rest, sep, 17);
  }

  /**
   * Ordinary chat text moves the count as well: a participant who sends
   * the separator and a number sets every client's count to that number.
   */
  lemma ChatLineSetsCount(name: string, n: nat)
    requires !Contains(name + ": " + Wire.CountLabel, Wire.CountSeparator)
    ensures ChatRoom.ExtractCount(Wire.ChatLine(name, Wire.CountSeparator + Decimal.Format(n))) == Some(n)
  {
    var pre, sep, d := name + ": ", Wire.CountSeparator, Decimal.Format(n);
    Regroup(pre, sep, d);
    CountAfterSeparator(pre, n);
  }

  /** Regrouping a concatenation of three texts. */
  lemma Regroup(a: string, b: string, c: string)
    ensures a + (b + c) == a + b + c
  {
  }

  /** Join and leave announcements are always styled as notifications. */
  lemma AnnouncementsAreNotifications(name: string, n: nat)
    ensures ChatRoom.IsNotification(Wire.JoinAnnouncement(name, n))
    ensures ChatRoom.IsNotification(Wire.LeaveAnnouncement(name, n))
  {
    var join, leave := Wire.JoinAnnouncement(name, n), Wire.LeaveAnnouncement(name, n);
    assert join[|name| + 1..|name| + 7] == "joined";
    ContainsAt(join, "joined", |name| + 1);
    assert leave[|name| + 1..|name| + 5] == "left";
    ContainsAt(leave, "left", |name| + 1);
  }

  /** A word without colon or space cannot overlap the `": "` of `a: b`. */
  lemma StraddleMisses(a: string, b: string, w: string, i: nat)
    requires |w| > 0
    requires forall k :: 0 <= k < |w| ==> w[k] != ':' && w[k] != ' '
    requires |a| < i + |w| && i < |a| + 2
    ensures !OccursAt(a + ": " + b, w, i)
  {
    var x := a + ": " + b;
    if i + |w| <= |x| {
      var k := if i <= |a| then |a| - i else 0;
      assert x[|a|] == ':' && x[|a| + 1] == ' ';
      assert x[i..i + |w|][k] == x[i + k] != w[k];
    }
  }

  /** A word without colon or space has no occurrence across the `": "` of `a: b`. */
  lemma OccursAroundColon(a: string, b: string, w: string, i: nat)
    requires |w| > 0
    requires forall k :: 0 <= k < |w| ==> w[k] != ':' && w[k] != ' '
    requires OccursAt(a + ": " + b, w, i)
    ensures OccursAt(a, w, i) || (i >= |a| + 2 && OccursAt(b, w, i - |a| - 2))
  {
    var x := a + ": " + b;
    if i + |w| <= |a| {
      assert a[i..i + |w|] == x[i..i + |w|];
    } else if i >= |a| + 2 {
      assert b[i - |a| - 2..i - |a| - 2 + |w|] == x[i..i + |w|];
    } else {
      StraddleMisses(a, b, w, i);
      assert false;
    }
  }

  /** An occurrence in the sender's name is an occurrence in the chat line. */
  lemma LeftWordLifts(a: string, b: string, w: string)
    requires Contains(a, w)
    ensures Contains(a + ": " + b, w)
  {
    var x := a + ": " + b;
    var i := FindFrom(a, w, 0).value;
    assert x[i..i + |w|] == a[i..i + |w|];
    ContainsAt(x, w, i);
  }

  /** An occurrence in the payload is an occurrence in the chat line. */
  lemma RightWordLifts(a: string, b: string, w: string)
    requires Contains(b, w)
    ensures Contains(a + ": " + b, w)
  {
    var x := a + ": " + b;
    var i := FindFrom(b, w, 0).value;
    assert x[|a| + 2 + i..|a| + 2 + i + |w|] == b[i..i + |w|];
    ContainsAt(x, w, |a| + 2 + i);
  }

  /**
   * A word without colon or space occurs in `a: b` exactly when it occurs
   * in `a` or in `b`.
   */
  lemma WordAroundColon(a: string, b: string, w: string)
    requires |w| > 0
    requires forall k :: 0 <= k < |w| ==> w[k] != ':' && w[k] != ' '
    ensures Contains(a + ": " + b, w) <==> Contains(a, w) || Contains(b, w)
  {
    var x := a + ": " + b;
    if Contains(a, w) {
      LeftWordLifts(a, b, w);
    }
    if Contains(b, w) {
      RightWordLifts(a, b, w);
    }
    if Contains(x, w) {
      var i := FindFrom(x, w, 0).value;
      OccursAroundColon(a, b, w, i);
      if OccursAt(a, w, i) {
        ContainsAt(a, w, i);
      } else {
        ContainsAt(b, w, i - |a| - 2);
      }
    }
  }

  /**
   * A chat line is styled as a notification exactly when the sender's name
   * or the text mentions joining or leaving: "Bob: I left early" is shown
   * like an announcement.
   */
  lemma ChatLineNotificationIff(name: string, payload: string)
    ensures ChatRoom.IsNotification(Wire.ChatLine(name, payload))
      <==> ChatRoom.IsNotification(name) || ChatRoom.IsNotification(payload)
  {
    WordAroundColon(name, payload, "joined");
    WordAroundColon(name, payload, "left");
  }
}
