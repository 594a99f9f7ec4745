/**
 * generateQuiz: turns a parsed question page into the Slack message the bot
 * posts. Each option's correctness is encoded in its button's `name`; text
 * options are appended to the prompt; image options become attachments of
 * their own, and a single image option switches the whole quiz to image mode.
 */
module Quiz {
  import opened Wrappers
  import opened Strings
  import opened Slack
  import opened ImageUrl

  /**
   * One `.selectBtn` element of the page: its `id` attribute, its own text
   * (`btn.text()`), the text of its `button` child, the text of the `div`
   * before it, and the `src` of an image inside that `div`, if it holds one.
   */
  datatype OptionRecord = OptionRecord(idAttr: Option<string>, markerText: string, buttonText: string,
                                       prevDivText: string, img: Option<string>)

  /**
   * The parsed question page: the `.qno` text, the text of the `div` after it,
   * the options in page order, and the `src` of each `.img_margin` image in
   * that `div`, in page order.
   */
  datatype Page = Page(no: string, questionText: string, options: seq<OptionRecord>, images: seq<string>)

  const CorrectToken := "collect"
  const WrongToken := "wrong"
  const AnswerCallback := "nw_answer"
  const MainCallback := "db_answer"
  const Gray := "#808080"
  const LinkNote := "\n\n詳細や画像が表示されていない場合はこちらへ\n"

  /** JavaScript truthiness of `btn.attr('id')`: present and not the empty string. */
  predicate Marked(idAttr: Option<string>)
  {
    idAttr.Some? && idAttr.value != ""
  }

  /** The button `name` that encodes an option's correctness. */
  function Token(o: OptionRecord): string
  {
    if Marked(o.idAttr) then CorrectToken else WrongToken
  }

  function AnswerButton(o: OptionRecord): Element
  {
    Button(Token(o), o.buttonText, o.buttonText)
  }

  /** What an option adds to the prompt: a line for a text option, nothing for an image option. */
  function PromptLine(o: OptionRecord): string
  {
    if o.img.None? then o.markerText + ".  " + o.prevDivText + "\n" else ""
  }

  function PromptLines(opts: seq<OptionRecord>): string
  {
    if |opts| == 0 then "" else PromptLines(opts[..|opts| - 1]) + PromptLine(opts[|opts| - 1])
  }

  function Prompt(page: Page): string
  {
    page.questionText + "\n\n" + PromptLines(page.options)
  }

  /** The entry `anss` receives for an option: the bare button, or an image attachment around it. */
  function AnswerEntry(o: OptionRecord, link: string, proxyBase: string): Element
  {
    match o.img
    case None => AnswerButton(o)
    case Some(src) =>
      var url := Rewrite(link, src);
      Attachment(None, o.buttonText, url, Some(AnswerCallback), Gray, Some(Proxied(proxyBase, url)),
                 Some([AnswerButton(o)]))
  }

  function Answers(opts: seq<OptionRecord>, link: string, proxyBase: string): seq<Element>
  {
    seq(|opts|, i requires 0 <= i < |opts| => AnswerEntry(opts[i], link, proxyBase))
  }

  /** The `choiseByImg` flag after the options loop: raised by the first image option and never lowered. */
  predicate ChoiceByImg(opts: seq<OptionRecord>)
  {
    |opts| > 0 && (ChoiceByImg(opts[..|opts| - 1]) || opts[|opts| - 1].img.Some?)
  }

  /** Image mode holds exactly when some option shows an image. */
  lemma {:induction false} ChoiceByImgIff(opts: seq<OptionRecord>)
    ensures ChoiceByImg(opts) <==> exists i :: 0 <= i < |opts| && opts[i].img.Some?
  {
    if |opts| > 0 {
      var init := opts[..|opts| - 1];
      ChoiceByImgIff(init);
      assert forall j :: 0 <= j < |init| ==> init[j] == opts[j];
    }
  }

  function ImageAttachment(no: string, link: string, proxyBase: string, src: string): Element
  {
    var url := Rewrite(link, src);
    Attachment(None, no, url, None, Gray, Some(Proxied(proxyBase, url)), None)
  }

  function ImageAttachments(page: Page, link: string, proxyBase: string): seq<Element>
  {
    seq(|page.images|, i requires 0 <= i < |page.images| => ImageAttachment(page.no, link, proxyBase, page.images[i]))
  }

  function MainAttachment(prompt: string, link: string, actions: Option<seq<Element>>): Element
  {
    Attachment(Some(prompt), LinkNote + link, prompt, Some(MainCallback), "good", None, actions)
  }

  /** The message generateQuiz hands to its callback, stated declaratively. */
  function QuizMessage(page: Page, link: string, proxyBase: string): Message
  {
    var anss := Answers(page.options, link, proxyBase);
    var imgs := ImageAttachments(page, link, proxyBase);
    if ChoiceByImg(page.options) then
      Message(page.no, [MainAttachment(Prompt(page), link, None)] + imgs + anss)
    else
      Message(page.no, [MainAttachment(Prompt(page), link, Some(anss))] + imgs)
  }

  /**
   * generateQuiz after both pages are fetched and parsed (`link` is the
   * question page's URL, `baseUri + href`; `proxyBase` is `HEROKU_URL`).
   */
  method GenerateQuiz(page: Page, link: string, proxyBase: string) returns (msg: Message)
    ensures msg == QuizMessage(page, link, proxyBase)
  {
    var q, anss, choiseByImg := EachOption(page, link, proxyBase);
    var attachments := ShowImages(page, link, proxyBase, MainAttachment(q, link, None));
    if choiseByImg {
      attachments := attachments + anss;
    } else {
      var a := attachments[0];
      a := a.(actions := Some(anss));
      attachments := attachments[0 := a];
    }
    msg := Message(page.no, attachments);
  }

  /**
   * The `.selectBtn` loop of generateQuiz: builds the prompt `q`, the answer
   * entries `anss`, and the image-mode flag.
   */
  method EachOption(page: Page, link: string, proxyBase: string)
    returns (q: string, anss: seq<Element>, choiseByImg: bool)
    ensures q == Prompt(page)
    ensures anss == Answers(page.options, link, proxyBase)
    ensures choiseByImg == ChoiceByImg(page.options)
  {
    var opts := page.options;
    q := page.questionText + "\n\n";
    ghost var head := q;
    anss := [];
    choiseByImg := false;
    var i := 0;
    while i < |opts|
      invariant 0 <= i <= |opts|
      invariant q == head + PromptLines(opts[..i])
      invariant anss == Answers(opts[..i], link, proxyBase)
      invariant choiseByImg == ChoiceByImg(opts[..i])
    {
      OptionStep(opts, i, link, proxyBase);
      q, anss, choiseByImg := EachStep(opts[i], link, proxyBase, q, anss, choiseByImg);
      AppendAssoc(head, PromptLines(opts[..i]), PromptLine(opts[i]));
      i := i + 1;
    }
    assert opts[..i] == opts;
  }

  /** The body of the `.selectBtn` loop for one option `o`. */
  method EachStep(o: OptionRecord, link: string, proxyBase: string, q: string, anss: seq<Element>, choiseByImg: bool)
    returns (q': string, anss': seq<Element>, choiseByImg': bool)
    ensures q' == q + PromptLine(o)
    ensures anss' == anss + [AnswerEntry(o, link, proxyBase)]
    ensures choiseByImg' == (choiseByImg || o.img.Some?)
  {
    var ans := AnswerButton(o);
    if o.img.None? {
      q' := q + (o.markerText + ".  " + o.prevDivText + "\n");
      anss' := anss + [ans];
      choiseByImg' := choiseByImg;
    } else {
      q' := q;
      var url := Rewrite(link, o.img.value);
      var att := Attachment(None, o.buttonText, url, Some(AnswerCallback), Gray,
                            Some(Proxied(proxyBase, url)), Some([ans]));
      anss' := anss + [att];
      choiseByImg' := true;
    }
  }

  /** What one more option adds to the prompt lines, the entries and the flag. */
  lemma OptionStep(opts: seq<OptionRecord>, i: nat, link: string, proxyBase: string)
    requires i < |opts|
    ensures PromptLines(opts[..i + 1]) == PromptLines(opts[..i]) + PromptLine(opts[i])
    ensures Answers(opts[..i + 1], link, proxyBase) == Answers(opts[..i], link, proxyBase) + [AnswerEntry(opts[i], link, proxyBase)]
    ensures ChoiceByImg(opts[..i + 1]) == (ChoiceByImg(opts[..i]) || opts[i].img.Some?)
  {
    var pre := opts[..i + 1];
    assert pre[..i] == opts[..i];
    PromptLinesLast(pre);
    AnswersLast(pre, link, proxyBase);
    ChoiceByImgLast(pre);
  }

  lemma PromptLinesLast(opts: seq<OptionRecord>)
    requires |opts| > 0
    ensures PromptLines(opts) == PromptLines(opts[..|opts| - 1]) + PromptLine(opts[|opts| - 1])
  {
  }

  lemma ChoiceByImgLast(opts: seq<OptionRecord>)
    requires |opts| > 0
    ensures ChoiceByImg(opts) == (ChoiceByImg(opts[..|opts| - 1]) || opts[|opts| - 1].img.Some?)
  {
  }

  lemma AnswersSnoc(s: seq<OptionRecord>, o: OptionRecord, link: string, proxyBase: string)
    ensures Answers(s + [o], link, proxyBase) == Answers(s, link, proxyBase) + [AnswerEntry(o, link, proxyBase)]
  {
  }

  /** The `.img_margin` loop of generateQuiz: appends one attachment per question image after `main`. */
  method ShowImages(page: Page, link: string, proxyBase: string, main: Element) returns (attachments: seq<Element>)
    ensures attachments == [main] + ImageAttachments(page, link, proxyBase)
  {
    attachments := [main];
    var k := 0;
    while k < |page.images|
      invariant 0 <= k <= |page.images|
      invariant |attachments| == k + 1 && attachments[0] == main
      invariant forall j :: 0 <= j < k ==> attachments[j + 1] == ImageAttachment(page.no, link, proxyBase, page.images[j])
    {
      var url := Rewrite(link, page.images[k]);
      attachments := attachments + [Attachment(None, page.no, url, None, Gray, Some(Proxied(proxyBase, url)), None)];
      k := k + 1;
    }
  }

  // ----- Properties of the assembled message -----

  /** The text options of a list, in order. */
  function TextOptions(opts: seq<OptionRecord>): (t: seq<OptionRecord>)
    ensures forall j :: 0 <= j < |t| ==> t[j].img.None?
  {
    if |opts| == 0 then []
    else TextOptions(opts[..|opts| - 1]) + (if opts[|opts| - 1].img.None? then [opts[|opts| - 1]] else [])
  }

  /** The image options of a list, in order. */
  function ImageOptions(opts: seq<OptionRecord>): (t: seq<OptionRecord>)
    ensures forall j :: 0 <= j < |t| ==> t[j].img.Some?
  {
    if |opts| == 0 then []
    else ImageOptions(opts[..|opts| - 1]) + (if opts[|opts| - 1].img.Some? then [opts[|opts| - 1]] else [])
  }

  /** The lines of the given options, one per option, in order. */
  function Lines(opts: seq<OptionRecord>): string
  {
    if |opts| == 0 then "" else Lines(opts[..|opts| - 1]) + opts[|opts| - 1].markerText + ".  " + opts[|opts| - 1].prevDivText + "\n"
  }

  /**
   * The prompt is the question text, a blank line, then one
   * "<marker text>.  <div text>" line per text option in page order; image
   * options add nothing.
   */
  lemma {:induction false} PromptIsTextOptionLines(page: Page)
    ensures Prompt(page) == page.questionText + "\n\n" + Lines(TextOptions(page.options))
  {
    PromptLinesText(page.options);
  }

  lemma {:induction false} PromptLinesText(opts: seq<OptionRecord>)
    ensures PromptLines(opts) == Lines(TextOptions(opts))
  {
    if |opts| > 0 {
      var init, o := opts[..|opts| - 1], opts[|opts| - 1];
      PromptLinesText(init);
      var t := TextOptions(init);
      if o.img.None? {
        assert TextOptions(opts) == t + [o];
        LinesSnoc(t, o);
      } else {
        assert TextOptions(opts) == t + [];
        assert t + [] == t;
      }
    }
  }

  lemma LinesSnoc(t: seq<OptionRecord>, o: OptionRecord)
    ensures Lines(t + [o]) == Lines(t) + o.markerText + ".  " + o.prevDivText + "\n"
  {
    assert (t + [o])[..|t|] == t;
  }

  /**
   * One answer entry per option, in page order: a text option's entry is its
   * bare button; an image option's is a gray `nw_answer` attachment showing
   * the proxied, rewritten image URL with that button as its only action.
   */
  lemma AnswerEntries(page: Page, link: string, proxyBase: string, i: nat)
    requires i < |page.options|
    ensures |Answers(page.options, link, proxyBase)| == |page.options|
    ensures var e := Answers(page.options, link, proxyBase)[i];
            var o := page.options[i];
            && (o.img.None? ==> e == AnswerButton(o))
            && (o.img.Some? ==>
                  && e.Attachment?
                  && e.text == o.buttonText
                  && e.callbackId == Some(AnswerCallback) && e.color == Gray
                  && e.fallback == Rewrite(link, o.img.value)
                  && e.imageUrl == Some(proxyBase + "image?url=" + Rewrite(link, o.img.value))
                  && e.actions == Some([AnswerButton(o)]))
  {
  }

  /**
   * The button objects of the message are exactly the options' buttons, in
   * page order, whichever layout the quiz takes.
   */
  lemma MessageButtons(page: Page, link: string, proxyBase: string)
    ensures Buttons(QuizMessage(page, link, proxyBase).attachments)
            == OptionButtons(page.options)
  {
    var imgs := ImageAttachments(page, link, proxyBase);
    ImageAttachmentsHaveNoButtons(imgs);
    if ChoiceByImg(page.options) {
      MessageButtonsImageMode(page, link, proxyBase, imgs);
    } else {
      MessageButtonsTextMode(page, link, proxyBase, imgs);
    }
  }

  lemma MessageButtonsImageMode(page: Page, link: string, proxyBase: string, imgs: seq<Element>)
    requires ChoiceByImg(page.options)
    requires imgs == ImageAttachments(page, link, proxyBase) && Buttons(imgs) == []
    ensures Buttons(QuizMessage(page, link, proxyBase).attachments)
            == OptionButtons(page.options)
  {
    var anss := Answers(page.options, link, proxyBase);
    var main := MainAttachment(Prompt(page), link, None);
    assert QuizMessage(page, link, proxyBase).attachments == [main] + imgs + anss;
    ButtonsAppend([main] + imgs, anss);
    ButtonsAppend([main], imgs);
    assert Buttons([main]) == [] by { assert [main][..0] == []; }
    AnswersButtons(page.options, link, proxyBase);
  }

  lemma MessageButtonsTextMode(page: Page, link: string, proxyBase: string, imgs: seq<Element>)
    requires !ChoiceByImg(page.options)
    requires imgs == ImageAttachments(page, link, proxyBase) && Buttons(imgs) == []
    ensures Buttons(QuizMessage(page, link, proxyBase).attachments)
            == OptionButtons(page.options)
  {
    var anss := Answers(page.options, link, proxyBase);
    var main := MainAttachment(Prompt(page), link, Some(anss));
    assert QuizMessage(page, link, proxyBase).attachments == [main] + imgs;
    ButtonsAppend([main], imgs);
    assert Buttons([main]) == BareButtons(anss) by { assert [main][..0] == []; }
    BareAnswersAreButtons(page.options, link, proxyBase);
  }

  lemma {:induction false} ImageAttachmentsHaveNoButtons(es: seq<Element>)
    requires forall j :: 0 <= j < |es| ==> es[j].Attachment? && es[j].actions.None?
    ensures Buttons(es) == []
  {
    if |es| > 0 {
      ImageAttachmentsHaveNoButtons(es[..|es| - 1]);
    }
  }

  lemma {:induction false} AnswersButtons(opts: seq<OptionRecord>, link: string, proxyBase: string)
    ensures Buttons(Answers(opts, link, proxyBase)) == OptionButtons(opts)
  {
    if |opts| > 0 {
      var init, o := opts[..|opts| - 1], opts[|opts| - 1];
      AnswersButtons(init, link, proxyBase);
      AnswersLast(opts, link, proxyBase);
      OptionButtonsLast(opts);
      ButtonsSnoc(Answers(init, link, proxyBase), AnswerEntry(o, link, proxyBase));
      EntryButtons(o, link, proxyBase);
    }
  }

  lemma AnswersLast(opts: seq<OptionRecord>, link: string, proxyBase: string)
    requires |opts| > 0
    ensures Answers(opts, link, proxyBase)
            == Answers(opts[..|opts| - 1], link, proxyBase) + [AnswerEntry(opts[|opts| - 1], link, proxyBase)]
  {
  }

  lemma OptionButtonsLast(opts: seq<OptionRecord>)
    requires |opts| > 0
    ensures OptionButtons(opts) == OptionButtons(opts[..|opts| - 1]) + [AnswerButton(opts[|opts| - 1])]
  {
  }

  lemma EntryButtons(o: OptionRecord, link: string, proxyBase: string)
    ensures ButtonsOf(AnswerEntry(o, link, proxyBase)) == [AnswerButton(o)]
  {
    if o.img.Some? {
      assert BareButtons([AnswerButton(o)]) == [AnswerButton(o)] by { assert [AnswerButton(o)][..0] == []; }
    }
  }

  /** The options' own buttons, in page order. */
  function OptionButtons(opts: seq<OptionRecord>): seq<Element>
  {
    seq(|opts|, i requires 0 <= i < |opts| => AnswerButton(opts[i]))
  }

  lemma OptionButtonsSnoc(s: seq<OptionRecord>, o: OptionRecord)
    ensures OptionButtons(s + [o]) == OptionButtons(s) + [AnswerButton(o)]
  {
  }

  /** Without image mode every answer entry is a bare button, so the main attachment's actions are all buttons. */
  lemma {:induction false} BareAnswersAreButtons(opts: seq<OptionRecord>, link: string, proxyBase: string)
    requires !ChoiceByImg(opts)
    ensures BareButtons(Answers(opts, link, proxyBase)) == OptionButtons(opts)
  {
    if |opts| > 0 {
      var init, o := opts[..|opts| - 1], opts[|opts| - 1];
      BareAnswersAreButtons(init, link, proxyBase);
      assert opts == init + [o];
      AnswersSnoc(init, o, link, proxyBase);
      var anss := Answers(opts, link, proxyBase);
      assert anss[..|opts| - 1] == Answers(init, link, proxyBase);
      assert anss[|opts| - 1] == AnswerButton(o);
      OptionButtonsSnoc(init, o);
    }
  }

  /**
   * The attachments in each layout: the main attachment first, carrying the
   * prompt, the page link after the note, and callback `db_answer`; then one
   * gray attachment per question image, in order, whose text is the question
   * number; then, in image mode only, the answer entries, with no actions on
   * the main attachment. Without image mode the answers are the main
   * attachment's actions.
   */
  lemma QuizLayout(page: Page, link: string, proxyBase: string)
    ensures var msg := QuizMessage(page, link, proxyBase);
            var n := |page.images|;
            var anss := Answers(page.options, link, proxyBase);
            && msg.text == page.no
            && |msg.attachments| == 1 + n + (if ChoiceByImg(page.options) then |page.options| else 0)
            && msg.attachments[0].Attachment?
            && msg.attachments[0].title == Some(Prompt(page))
            && msg.attachments[0].text == LinkNote + link
            && msg.attachments[0].callbackId == Some(MainCallback)
            && msg.attachments[0].actions == (if ChoiceByImg(page.options) then None else Some(anss))
            && (forall j :: 0 <= j < n ==>
                  && msg.attachments[1 + j].text == page.no
                  && msg.attachments[1 + j].actions.None?
                  && msg.attachments[1 + j].imageUrl == Some(proxyBase + "image?url=" + Rewrite(link, page.images[j])))
            && (ChoiceByImg(page.options) ==> msg.attachments[1 + n..] == anss)
  {
    var anss := Answers(page.options, link, proxyBase);
    var imgs := ImageAttachments(page, link, proxyBase);
    var msg := QuizMessage(page, link, proxyBase);
    ImageAttachmentsShape(page, link, proxyBase);
    if ChoiceByImg(page.options) {
      var main := MainAttachment(Prompt(page), link, None);
      assert msg.attachments == [main] + imgs + anss;
      Concatenated(main, imgs, anss);
    } else {
      var main := MainAttachment(Prompt(page), link, Some(anss));
      assert msg.attachments == [main] + imgs + [];
      Concatenated(main, imgs, []);
    }
  }

  lemma ImageAttachmentsShape(page: Page, link: string, proxyBase: string)
    ensures var imgs := ImageAttachments(page, link, proxyBase);
            && |imgs| == |page.images|
            && forall j :: 0 <= j < |page.images| ==>
                 && imgs[j].text == page.no
                 && imgs[j].actions.None?
                 && imgs[j].imageUrl == Some(proxyBase + "image?url=" + Rewrite(link, page.images[j]))
  {
  }

  lemma Concatenated(main: Element, imgs: seq<Element>, rest: seq<Element>)
    ensures var all := [main] + imgs + rest;
            && |all| == 1 + |imgs| + |rest| && all[0] == main
            && (forall j :: 0 <= j < |imgs| ==> all[1 + j] == imgs[j])
            && all[1 + |imgs|..] == rest
  {
    var all := [main] + imgs + rest;
    assert all[1 + |imgs|..] == rest;
  }
}
