/**
 * The `interactive_message_callback` handler: decodes a click back into a
 * correct/wrong reply from the clicked action's `name` alone, with no server
 * state, and the round trip from an option's marker to the verdict.
 */
module Grading {
  import opened Wrappers
  import opened Strings
  import opened Slack
  import opened Quiz

  datatype Verdict = Correct | Wrong

  /** What the handler does with an event: nothing, a TypeError (no `actions[0]`), or a reply. */
  datatype Handled = Ignored | Threw | Replied(reply: Reply)

  const CorrectMark := ":white_check_mark:"
  const WrongMark := ":x:"

  /** The token decoding: a pure string comparison against `'collect'`. */
  function Decode(token: string): Verdict
  {
    if token == CorrectToken then Correct else Wrong
  }

  function VerdictText(v: Verdict, user: string): string
  {
    if v == Correct then CorrectMark + " <@" + user + "> 正解!" else WrongMark + " <@" + user + "> 残念…"
  }

  function HandleClick(c: Click): Handled
  {
    if c.callbackId != AnswerCallback then Ignored
    else if |c.actions| == 0 then Threw
    else
      var v := Decode(c.actions[0].name);
      var att := Attachment(None, VerdictText(v, c.user), "失敗しました。", Some(AnswerCallback),
                            if v == Correct then "good" else "danger", None, None);
      Replied(Reply(c.originalText, [att], "in_channel", false))
  }

  /**
   * A click carrying callback `nw_answer` on button `b`, as Slack reports a
   * click on a button inside an `nw_answer` attachment. Which buttons of the
   * posted quiz Slack actually reports this way is stated by `Clicks`
   * (`ImageModeClicks`, `TextModeClicksIgnored`).
   */
  function ClickOn(b: Element, user: string, originalText: string): Click
    requires b.Button?
  {
    Click(AnswerCallback, [Action(b.name, b.value)], user, originalText)
  }

  /**
   * The reply to an `nw_answer` click keeps the original message's text, adds
   * exactly one attachment whose text announces the verdict with
   * `:white_check_mark:` exactly when the first action's name is `collect`
   * and with `:x:` otherwise, mentions the user, is colored good or danger
   * accordingly, and leaves the original message in place. Other callbacks
   * are ignored; a click without actions makes the handler throw.
   */
  lemma GradingReply(c: Click)
    ensures HandleClick(c).Ignored? <==> c.callbackId != AnswerCallback
    ensures HandleClick(c).Threw? <==> c.callbackId == AnswerCallback && |c.actions| == 0
    ensures HandleClick(c).Replied? ==>
              var r := HandleClick(c).reply;
              var correct := c.actions[0].name == CorrectToken;
              && r.text == c.originalText
              && |r.attachments| == 1
              && r.attachments[0].Attachment?
              && (StartsWith(r.attachments[0].text, CorrectMark) <==> correct)
              && (StartsWith(r.attachments[0].text, WrongMark) <==> !correct)
              && Contains(r.attachments[0].text, "<@" + c.user + ">")
              && r.attachments[0].color == (if correct then "good" else "danger")
              && r.attachments[0].callbackId == Some(AnswerCallback)
              && r.responseType == "in_channel"
              && !r.replaceOriginal
  {
    if c.callbackId == AnswerCallback && |c.actions| > 0 {
      VerdictTextShape(Decode(c.actions[0].name), c.user);
    }
  }

  /** The verdict text starts with the verdict's mark, and only with it, and mentions the user. */
  lemma VerdictTextShape(v: Verdict, user: string)
    ensures StartsWith(VerdictText(v, user), CorrectMark) <==> v == Correct
    ensures StartsWith(VerdictText(v, user), WrongMark) <==> v == Wrong
    ensures Contains(VerdictText(v, user), "<@" + user + ">")
  {
    if v == Correct {
      MarkedText(CorrectMark, user, "> 正解!");
      assert WrongMark[1] == 'x' != CorrectMark[1];
    } else {
      MarkedText(WrongMark, user, "> 残念…");
      assert CorrectMark[1] == 'w' != WrongMark[1];
    }
  }

  /** A text `mark <@user` + `tail`, where `tail` opens with `>`, starts with `mark`, has `mark`'s second character second, and mentions the user. */
  lemma MarkedText(mark: string, user: string, tail: string)
    requires |mark| >= 2 && |tail| >= 1 && tail[0] == '>'
    ensures var t := mark + " <@" + user + tail;
            StartsWith(t, mark) && t[1] == mark[1] && Contains(t, "<@" + user + ">")
  {
    var t := mark + " <@" + user + tail;
    var mention := "<@" + user + ">";
    assert t[..|mark|] == mark;
    assert t[|mark| + 1..][..|mention|] == mention;
  }

  /**
   * An option's token decodes to correct exactly when its marker was truthy,
   * and an `nw_answer` click on its button is graded `good` exactly then.
   */
  lemma TokenRoundTrip(o: OptionRecord, user: string, originalText: string)
    ensures AnswerButton(o).Button?
    ensures HandleClick(ClickOn(AnswerButton(o), user, originalText)).Replied?
    ensures HandleClick(ClickOn(AnswerButton(o), user, originalText)).reply.attachments[0].color
            == (if Marked(o.idAttr) then "good" else "danger")
    ensures Decode(AnswerButton(o).name) == Correct <==> Marked(o.idAttr)
  {
  }

  /**
   * Encoding depends on correctness only: two options with equally truthy
   * markers get the same token, whatever their text or position, and the
   * token is always `collect` or `wrong`.
   */
  lemma TokenDependsOnMarkerOnly(o1: OptionRecord, o2: OptionRecord)
    ensures Token(o1) == CorrectToken || Token(o1) == WrongToken
    ensures Marked(o1.idAttr) == Marked(o2.idAttr) ==> Token(o1) == Token(o2)
    ensures Marked(o1.idAttr) != Marked(o2.idAttr) ==> Token(o1) != Token(o2)
  {
  }

  /**
   * The token of the i-th button of the posted quiz decodes to correct
   * exactly when the i-th option on the page carried the marker, and an
   * `nw_answer` click on that button is graded. Only image options in image
   * mode are offered such a click (`ImageModeGrading`).
   */
  lemma QuizRoundTrip(page: Page, link: string, proxyBase: string, i: nat, user: string)
    requires i < |page.options|
    ensures var bs := Buttons(QuizMessage(page, link, proxyBase).attachments);
            && |bs| == |page.options| && bs[i].Button?
            && HandleClick(ClickOn(bs[i], user, page.no)).Replied?
            && (Decode(bs[i].name) == Correct <==> Marked(page.options[i].idAttr))
  {
    MessageButtons(page, link, proxyBase);
  }

  /**
   * With no option marked, an `nw_answer` click on any button of the quiz is
   * graded `danger`, and every click Slack delivers for the posted quiz is
   * either ignored or graded `danger`.
   */
  lemma NoMarkerAllWrong(page: Page, link: string, proxyBase: string, user: string)
    requires forall j :: 0 <= j < |page.options| ==> !Marked(page.options[j].idAttr)
    ensures var bs := Buttons(QuizMessage(page, link, proxyBase).attachments);
            forall b :: b in bs ==>
              (b.Button? && HandleClick(ClickOn(b, user, page.no)).Replied?
               && HandleClick(ClickOn(b, user, page.no)).reply.attachments[0].color == "danger")
    ensures forall c :: c in Clicks(QuizMessage(page, link, proxyBase).attachments, user, page.no) ==>
              HandleClick(c) == Ignored
              || (HandleClick(c).Replied? && HandleClick(c).reply.attachments[0].color == "danger")
  {
    MessageButtons(page, link, proxyBase);
    if ChoiceByImg(page.options) {
      ImageModeClicks(page, link, proxyBase, user);
      var os := ImageOptions(page.options);
      ImageOptionsFrom(page.options);
      forall k | 0 <= k < |os| ensures !Marked(os[k].idAttr) {
        var j :| 0 <= j < |page.options| && page.options[j] == os[k];
      }
    } else {
      TextModeClicksIgnored(page, link, proxyBase, user);
    }
  }

  /** Every image option is one of the options. */
  lemma {:induction false} ImageOptionsFrom(opts: seq<OptionRecord>)
    ensures forall k :: 0 <= k < |ImageOptions(opts)| ==>
              exists j :: 0 <= j < |opts| && opts[j] == ImageOptions(opts)[k]
  {
    if |opts| > 0 {
      var init := opts[..|opts| - 1];
      ImageOptionsFrom(init);
      var before, os := ImageOptions(init), ImageOptions(opts);
      assert os == before + (if opts[|opts| - 1].img.Some? then [opts[|opts| - 1]] else []);
      forall k | 0 <= k < |os| ensures exists j :: 0 <= j < |opts| && opts[j] == os[k] {
        if k < |before| {
          var j :| 0 <= j < |init| && init[j] == before[k];
          assert opts[j] == os[k];
        } else {
          assert opts[|opts| - 1] == os[k];
        }
      }
    } else {
      assert ImageOptions(opts) == [];
    }
  }

  // ----- Which clicks reach the handler, under Slack's delivery -----

  /**
   * The clicks Slack reports for the given options' buttons when each sits
   * alone in an `nw_answer` attachment: for an image option this is the one
   * click `Slack.ClicksOf` yields for its answer entry (`EntryClicks`).
   */
  function ClicksFor(os: seq<OptionRecord>, user: string, originalText: string): seq<Click>
  {
    seq(|os|, i requires 0 <= i < |os| => Click(AnswerCallback, [Action(Token(os[i]), os[i].buttonText)], user, originalText))
  }

  /**
   * Without image mode the buttons sit in the main attachment, whose callback
   * is `db_answer`, so every click Slack delivers is ignored by the handler.
   */
  lemma TextModeClicksIgnored(page: Page, link: string, proxyBase: string, user: string)
    requires !ChoiceByImg(page.options)
    ensures forall c :: c in Clicks(QuizMessage(page, link, proxyBase).attachments, user, page.no) ==>
              c.callbackId == MainCallback && HandleClick(c) == Ignored
  {
    var anss := Answers(page.options, link, proxyBase);
    var main := MainAttachment(Prompt(page), link, Some(anss));
    var imgs := ImageAttachments(page, link, proxyBase);
    assert QuizMessage(page, link, proxyBase).attachments == [main] + imgs;
    OnlyMainClickable(main, imgs, user, page.no);
  }

  lemma OnlyMainClickable(main: Element, imgs: seq<Element>, user: string, originalText: string)
    requires main.Attachment?
    requires forall j :: 0 <= j < |imgs| ==> imgs[j].Attachment? && imgs[j].actions.None?
    ensures Clicks([main] + imgs, user, originalText) == ClicksOf(main, user, originalText)
  {
    ClicksAppend([main], imgs, user, originalText);
    ImageAttachmentsHaveNoClicks(imgs, user, originalText);
    assert Clicks([main], user, originalText) == ClicksOf(main, user, originalText) by { assert [main][..0] == []; }
  }

  lemma {:induction false} ImageAttachmentsHaveNoClicks(es: seq<Element>, user: string, originalText: string)
    requires forall j :: 0 <= j < |es| ==> es[j].Attachment? && es[j].actions.None?
    ensures Clicks(es, user, originalText) == []
  {
    if |es| > 0 {
      ImageAttachmentsHaveNoClicks(es[..|es| - 1], user, originalText);
    }
  }

  /**
   * In image mode the clickable buttons are exactly those of the image
   * options, in page order, each delivered with callback `nw_answer`; the text
   * options' bare buttons offer nothing to click.
   */
  lemma ImageModeClicks(page: Page, link: string, proxyBase: string, user: string)
    requires ChoiceByImg(page.options)
    ensures Clicks(QuizMessage(page, link, proxyBase).attachments, user, page.no)
            == ClicksFor(ImageOptions(page.options), user, page.no)
  {
    var anss := Answers(page.options, link, proxyBase);
    var main := MainAttachment(Prompt(page), link, None);
    var imgs := ImageAttachments(page, link, proxyBase);
    assert QuizMessage(page, link, proxyBase).attachments == [main] + imgs + anss;
    OnlyAnswersClickable(main, imgs, anss, user, page.no);
    AnswersClicks(page.options, link, proxyBase, user, page.no);
  }

  lemma OnlyAnswersClickable(main: Element, imgs: seq<Element>, anss: seq<Element>, user: string, originalText: string)
    requires main.Attachment? && main.actions.None?
    requires forall j :: 0 <= j < |imgs| ==> imgs[j].Attachment? && imgs[j].actions.None?
    ensures Clicks([main] + imgs + anss, user, originalText) == Clicks(anss, user, originalText)
  {
    var pre := [main] + imgs;
    assert forall j :: 0 <= j < |pre| ==> pre[j].Attachment? && pre[j].actions.None? by {
      assert forall j :: 0 < j < |pre| ==> pre[j] == imgs[j - 1];
    }
    ImageAttachmentsHaveNoClicks(pre, user, originalText);
    ClicksAppend(pre, anss, user, originalText);
  }

  lemma {:induction false} AnswersClicks(opts: seq<OptionRecord>, link: string, proxyBase: string,
                                         user: string, originalText: string)
    ensures Clicks(Answers(opts, link, proxyBase), user, originalText) == ClicksFor(ImageOptions(opts), user, originalText)
  {
    if |opts| > 0 {
      var init, o := opts[..|opts| - 1], opts[|opts| - 1];
      AnswersClicks(init, link, proxyBase, user, originalText);
      assert opts == init + [o];
      AnswersSnoc(init, o, link, proxyBase);
      var anss := Answers(opts, link, proxyBase);
      assert anss[..|opts| - 1] == Answers(init, link, proxyBase);
      assert anss[|opts| - 1] == AnswerEntry(o, link, proxyBase);
      EntryClicks(o, link, proxyBase, user, originalText);
      var before := ImageOptions(init);
      if o.img.Some? {
        assert ImageOptions(opts) == before + [o];
        ClicksForSnoc(before, o, user, originalText);
      } else {
        assert ImageOptions(opts) == before + [];
        assert before + [] == before;
      }
    }
  }

  lemma EntryClicks(o: OptionRecord, link: string, proxyBase: string, user: string, originalText: string)
    ensures ClicksOf(AnswerEntry(o, link, proxyBase), user, originalText)
            == if o.img.Some? then [Click(AnswerCallback, [Action(Token(o), o.buttonText)], user, originalText)] else []
  {
    if o.img.Some? {
      assert BareButtons([AnswerButton(o)]) == [AnswerButton(o)] by { assert [AnswerButton(o)][..0] == []; }
    }
  }

  lemma ClicksForSnoc(os: seq<OptionRecord>, o: OptionRecord, user: string, originalText: string)
    ensures ClicksFor(os + [o], user, originalText)
            == ClicksFor(os, user, originalText) + [Click(AnswerCallback, [Action(Token(o), o.buttonText)], user, originalText)]
  {
  }

  /**
   * In image mode each delivered click is graded, and says correct exactly
   * when the option it belongs to carried the marker.
   */
  lemma ImageModeGrading(page: Page, link: string, proxyBase: string, user: string, k: nat)
    requires ChoiceByImg(page.options)
    requires k < |Clicks(QuizMessage(page, link, proxyBase).attachments, user, page.no)|
    ensures var cs := Clicks(QuizMessage(page, link, proxyBase).attachments, user, page.no);
            var os := ImageOptions(page.options);
            && k < |os|
            && HandleClick(cs[k]).Replied?
            && (HandleClick(cs[k]).reply.attachments[0].color == "good" <==> Marked(os[k].idAttr))
  {
    ImageModeClicks(page, link, proxyBase, user);
  }
}
