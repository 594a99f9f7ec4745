/**
 * post3minArticle and the counter kept by the 13:00/18:00 cron tick: the
 * article number is padded to two characters and put into a fixed URL, and
 * the tick saves `{id: 'articleNo', no: no + 1}` in the teams collection.
 */
module Article {
  import opened Wrappers
  import opened Strings
  import opened Storage

  const CounterId := "articleNo"
  const ArticleChannel := "ipa-nw"
  const ArticleBase := "http://www5e.biglobe.ne.jp/aji/3min/"

  /** Where the article text goes: a reply to the triggering message, or a post in the fixed channel. */
  datatype Outgoing = ReplyTo(message: string, text: string) | Say(channel: string, text: string)

  /**
   * `no === 0 ? 0 : ('00' + no).slice(-2)`: the number 0 itself, printed as
   * "0", for zero; otherwise the last two characters of "00" + `no`.
   */
  function Padded(no: nat): string
  {
    if no == 0 then "0"
    else
      var s := "00" + NatToString(no);
      s[|s| - 2..]
  }

  function ArticleUrl(no: nat): string
  {
    ArticleBase + Padded(no) + ".html"
  }

  function ArticleText(no: nat): string
  {
    "まずは基礎から!\n*第 " + NatToString(no) + "/81 回目* " + ArticleUrl(no)
  }

  /** post3minArticle(bot, no, msg): reply when there is a message to answer, otherwise post in `ipa-nw`. */
  function PostArticle(no: nat, msg: Option<string>): Outgoing
  {
    if msg.Some? then ReplyTo(msg.value, ArticleText(no)) else Say(ArticleChannel, ArticleText(no))
  }

  /** The record the cron tick saves after posting article `no`. */
  function CounterRecord(no: nat): Record
  {
    Record(CounterId, map["no" := Int(no + 1)])
  }

  /** For every positive `no`, the padded number is its tens digit then its units digit. */
  lemma PaddedDigits(no: nat)
    requires no > 0
    ensures Padded(no) == [DigitChar(no / 10 % 10), DigitChar(no % 10)]
  {
    var t := NatToString(no);
    var s := "00" + t;
    NatToStringLastDigits(no);
    assert s[|s| - 1] == t[|t| - 1];
    if no >= 10 {
      assert s[|s| - 2] == t[|t| - 2];
    } else {
      assert |t| == 1 && s[|s| - 2] == '0';
    }
  }

  /**
   * Zero stays "0"; 1 to 9 gain a leading zero; 10 to 99 are printed as they
   * are; from 100 on only the last two digits remain.
   */
  lemma PaddedCases(no: nat)
    ensures no == 0 ==> Padded(no) == "0"
    ensures 1 <= no < 10 ==> Padded(no) == "0" + NatToString(no)
    ensures 10 <= no < 100 ==> Padded(no) == NatToString(no)
    ensures no >= 100 ==> Padded(no) == NatToString(no)[|NatToString(no)| - 2..]
  {
    if no >= 10 {
      PaddedKeepsLastTwo(no);
      if no < 100 {
        assert |NatToString(no / 10)| == 1;
      }
    }
  }

  lemma PaddedKeepsLastTwo(no: nat)
    requires no >= 10
    ensures |NatToString(no)| >= 2 && Padded(no) == NatToString(no)[|NatToString(no)| - 2..]
  {
    var t := NatToString(no);
    assert Padded(no) == ("00" + t)[|t|..];
    SuffixAfterZeros(t);
  }

  lemma SuffixAfterZeros(t: string)
    requires |t| >= 2
    ensures ("00" + t)[|t|..] == t[|t| - 2..]
  {
  }

  lemma PaddedExamples()
    ensures Padded(0) == "0" && Padded(5) == "05" && Padded(42) == "42" && Padded(123) == "23"
  {
    PaddedDigits(5);
    PaddedDigits(42);
    PaddedDigits(123);
  }

  /** The article text shows `no` out of 81 and ends with the article's URL. */
  lemma ArticleTextShape(no: nat)
    ensures Contains(ArticleText(no), NatToString(no) + "/81")
    ensures var t := ArticleText(no); |ArticleUrl(no)| <= |t| && t[|t| - |ArticleUrl(no)|..] == ArticleUrl(no)
  {
    FramedText(NatToString(no), ArticleUrl(no));
  }

  lemma FramedText(num: string, url: string)
    ensures var t := "まずは基礎から!\n*第 " + num + "/81 回目* " + url;
            Contains(t, num + "/81") && |url| <= |t| && t[|t| - |url|..] == url
  {
    var head := "まずは基礎から!\n*第 ";
    var x := num + "/81";
    var post := " 回目* " + url;
    var t := head + num + "/81 回目* " + url;
    assert "/81 回目* " == "/81" + " 回目* ";
    AppendAssoc(head + num, "/81", " 回目* ");
    AppendAssoc(head, num, "/81");
    AppendAssoc(head + x, " 回目* ", url);
    assert t == head + x + post;
    InfixAt(head, x, post);
    assert t[|t| - |url|..] == url;
  }

  lemma InfixAt(pre: string, x: string, post: string)
    ensures Contains(pre + x + post, x)
  {
    var t := pre + x + post;
    assert t[|pre|..][..|x|] == x;
  }

  /** After the tick, the teams collection holds the counter under `articleNo` with `no` one higher. */
  lemma CounterAdvances(m: map<string, Record>, path: string, no: nat)
    ensures Lookup(Stored(m, path, Teams, CounterRecord(no)), path, Teams, CounterId) == Some(CounterRecord(no))
    ensures CounterRecord(no).fields["no"] == Int(no + 1)
  {
    SaveThenGet(m, path, Teams, CounterRecord(no));
  }

  /**
   * The cron tick with the counter value `no` already read: posts the article
   * in the channel, then saves the advanced counter in the teams collection.
   */
  method ThreeMinTick(store: S3Storage, no: nat, reachable: bool) returns (post: Outgoing)
    modifies store
    ensures post == Say(ArticleChannel, ArticleText(no))
    ensures store.objects == if reachable then Stored(old(store.objects), store.path, Teams, CounterRecord(no))
                             else old(store.objects)
  {
    post := PostArticle(no, None);
    var _ := store.Save(Teams, Record(CounterId, map["no" := Int(no + 1)]), reachable);
  }
}
