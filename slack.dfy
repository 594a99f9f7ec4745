/** The Slack message payloads the bot builds and receives (legacy interactive attachments). */
module Slack {
  import opened Wrappers

  /**
   * An element of an `attachments` or `actions` array. `Button` stands for
   * `{type: 'button', name, text, value}`; `Attachment` for an attachment
   * object, each JavaScript property that an object may lack being an `Option`.
   */
  datatype Element =
    | Button(name: string, text: string, value: string)
    | Attachment(title: Option<string>, text: string, fallback: string,
                 callbackId: Option<string>, color: string,
                 imageUrl: Option<string>, actions: Option<seq<Element>>)

  /** A message the bot posts: `{text, attachments}`. */
  datatype Message = Message(text: string, attachments: seq<Element>)

  /** One clicked action of an interactive callback: `{name, value}`. */
  datatype Action = Action(name: string, value: string)

  /** The fields of an `interactive_message_callback` event that the handler reads. */
  datatype Click = Click(callbackId: string, actions: seq<Action>, user: string, originalText: string)

  /** The payload handed to `replyInteractive`. */
  datatype Reply = Reply(text: string, attachments: seq<Element>, responseType: string, replaceOriginal: bool)

  /** The button objects of an element list: bare buttons, and the buttons in each attachment's actions. */
  function Buttons(es: seq<Element>): seq<Element>
  {
    if |es| == 0 then [] else Buttons(es[..|es| - 1]) + ButtonsOf(es[|es| - 1])
  }

  function ButtonsOf(e: Element): seq<Element>
  {
    match e
    case Button(_, _, _) => [e]
    case Attachment(_, _, _, _, _, _, actions) =>
      if actions.Some? then BareButtons(actions.value) else []
  }

  function BareButtons(es: seq<Element>): (bs: seq<Element>)
    ensures forall i :: 0 <= i < |bs| ==> bs[i].Button?
    ensures |bs| <= |es|
  {
    if |es| == 0 then [] else BareButtons(es[..|es| - 1]) + (if es[|es| - 1].Button? then [es[|es| - 1]] else [])
  }

  lemma ButtonsSnoc(es: seq<Element>, e: Element)
    ensures Buttons(es + [e]) == Buttons(es) + ButtonsOf(e)
  {
    assert (es + [e])[..|es|] == es;
  }

  lemma {:induction false} ButtonsAppend(a: seq<Element>, b: seq<Element>)
    ensures Buttons(a + b) == Buttons(a) + Buttons(b)
  {
    if |b| > 0 {
      assert (a + b)[..|a + b| - 1] == a + b[..|b| - 1];
      ButtonsAppend(a, b[..|b| - 1]);
    } else {
      assert a + b == a;
    }
  }

  /**
   * How Slack delivers a click: a button is clickable only inside an
   * attachment's `actions`, and the callback carries that attachment's
   * `callback_id` (the empty string when it has none) and the `name` and
   * `value` of the button.
   */
  function Clicks(es: seq<Element>, user: string, originalText: string): seq<Click>
  {
    if |es| == 0 then []
    else Clicks(es[..|es| - 1], user, originalText) + ClicksOf(es[|es| - 1], user, originalText)
  }

  function ClicksOf(e: Element, user: string, originalText: string): seq<Click>
  {
    match e
    case Button(_, _, _) => []
    case Attachment(_, _, _, callbackId, _, _, actions) =>
      var id := if callbackId.Some? then callbackId.value else "";
      var bs := if actions.Some? then BareButtons(actions.value) else [];
      seq(|bs|, i requires 0 <= i < |bs| => Click(id, [Action(bs[i].name, bs[i].value)], user, originalText))
  }

  lemma {:induction false} ClicksAppend(a: seq<Element>, b: seq<Element>, user: string, originalText: string)
    ensures Clicks(a + b, user, originalText) == Clicks(a, user, originalText) + Clicks(b, user, originalText)
  {
    if |b| > 0 {
      assert (a + b)[..|a + b| - 1] == a + b[..|b| - 1];
      ClicksAppend(a, b[..|b| - 1], user, originalText);
    } else {
      assert a + b == a;
    }
  }
}
