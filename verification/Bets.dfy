/**
  The wager parser `parse_bets` (main_final.py:256-278): a command text is
  cut into blank-separated tokens; each token is tried against every tag
  of a fixed table, in table order, and a tag that prefixes the token and
  leaves a positive integer after it records that amount for its kind.
 */
module Bets {
  import opened Wrappers
  import Text

  /** The eight bet kinds of the game. */
  datatype BetKind = Player | Banker | Tie | BankerPair | PlayerPair | SuperSix | Big | Small

  /** A parsed wager: the stake per kind. */
  type BetMap = map<BetKind, int>

  /** The command word that is cut out of the text before tokenizing. */
  const Command := "/baccarat"

  /** The tag table, in the order the parser tries it. */
  const Labels: seq<(string, BetKind)> := [
    ("闲", Player), ("庄", Banker), ("和", Tie), ("庄对", BankerPair),
    ("闲对", PlayerPair), ("超6", SuperSix), ("大", Big), ("小", Small)
  ]

  /** Every kind exactly once, in the order settlement tests them. */
  const AllKinds: seq<BetKind> := [Player, Banker, Tie, PlayerPair, BankerPair, SuperSix, Big, Small]

  predicate Positive(bets: BetMap) {
    forall k :: k in bets ==> bets[k] > 0
  }

  /**
    The stake that `tok` places under `tag`: the token starts with the
    tag and the rest reads as an integer that is greater than zero.
   */
  function LabelAmount(tok: string, tag: string): (r: Option<int>)
    ensures r.Some? ==> r.value > 0 && |tag| <= |tok| && tok[..|tag|] == tag
    ensures r.Some? ==> Text.ParseInt(tok[|tag|..]) == Some(r.value)
    ensures r.Some? <==> |tag| <= |tok| && tok[..|tag|] == tag
                         && Text.ParseInt(tok[|tag|..]).Some? && Text.ParseInt(tok[|tag|..]).value > 0
  {
    if |tag| <= |tok| && tok[..|tag|] == tag then
      match Text.ParseInt(tok[|tag|..])
      case Some(a) => if a > 0 then Some(a) else None
      case None => None
    else None
  }

  /** The inner loop of the parser: labels `i..` tried in turn against one token. */
  function ApplyLabels(bets: BetMap, tok: string, i: nat): BetMap
    requires i <= |Labels|
    decreases |Labels| - i
  {
    if i == |Labels| then bets
    else
      var next := match LabelAmount(tok, Labels[i].0)
                  case Some(a) => bets[Labels[i].1 := a]
                  case None => bets;
      ApplyLabels(next, tok, i + 1)
  }

  /** What one token does to the bets collected so far. */
  function ApplyToken(bets: BetMap, tok: string): BetMap {
    ApplyLabels(bets, tok, 0)
  }

  /** The first tag from index `i` on that gives `tok` a stake, with that stake. */
  function FirstFrom(tok: string, i: nat): Option<(BetKind, int)>
    requires i <= |Labels|
    decreases |Labels| - i
  {
    if i == |Labels| then None
    else match LabelAmount(tok, Labels[i].0)
      case Some(a) => Some((Labels[i].1, a))
      case None => FirstFrom(tok, i + 1)
  }

  /** The bet a token stands for, if any. */
  function TokenBet(tok: string): Option<(BetKind, int)> {
    FirstFrom(tok, 0)
  }

  /** The tokens in order, later ones overwriting earlier ones of the same kind. */
  function ParseTokens(toks: seq<string>): (bets: BetMap)
    ensures Positive(bets)
  {
    if toks == [] then map[]
    else
      var prev := ParseTokens(toks[..|toks| - 1]);
      ApplyTokenIsTokenBet(prev, toks[|toks| - 1]);
      ApplyToken(prev, toks[|toks| - 1])
  }

  /** `parse_bets(text)`. */
  function ParseBets(text: string): (bets: BetMap)
    ensures Positive(bets)
  {
    ParseTokens(Text.Split(Text.Strip(Text.RemoveAll(text, Command))))
  }

  // ---------------------------------------------------------------- lemmas

  /**
    No token gets a stake from two labels. The only labels that can both
    prefix a token are 闲/闲对 and 庄/庄对, and then what follows the short
    tag starts with 对, which is not an integer.
   */
  lemma AtMostOneLabel(tok: string, i: nat, j: nat)
    requires i < j < |Labels|
    ensures LabelAmount(tok, Labels[i].0).None? || LabelAmount(tok, Labels[j].0).None?
  {
    var li, lj := Labels[i].0, Labels[j].0;
    if |li| <= |tok| && tok[..|li|] == li && |lj| <= |tok| && tok[..|lj|] == lj {
      assert tok[0] == li[0] == lj[0];
      assert |li| == 1 && |lj| == 2 && lj[1] == '对';
      assert tok[|li|..][0] == tok[1] == '对';
    }
  }

  /** A bet found from label `i` on comes from a later label whose tag gives a positive stake. */
  lemma {:induction false} FirstFromFound(tok: string, i: nat)
    requires i <= |Labels| && FirstFrom(tok, i).Some?
    ensures FirstFrom(tok, i).value.1 > 0
    ensures exists j :: i <= j < |Labels| && Labels[j].1 == FirstFrom(tok, i).value.0
                        && LabelAmount(tok, Labels[j].0) == Some(FirstFrom(tok, i).value.1)
    decreases |Labels| - i
  {
    if LabelAmount(tok, Labels[i].0).None? {
      FirstFromFound(tok, i + 1);
    }
  }

  /** No bet is found from label `i` on exactly when none of those tags gives a stake. */
  lemma {:induction false} FirstFromNone(tok: string, i: nat)
    requires i <= |Labels|
    ensures FirstFrom(tok, i).None? <==> forall j :: i <= j < |Labels| ==> LabelAmount(tok, Labels[j].0).None?
    decreases |Labels| - i
  {
    if i < |Labels| {
      FirstFromNone(tok, i + 1);
    }
  }

  /** A tag that gives the token a stake decides its bet, however early the search starts. */
  lemma {:induction false} FirstFromOfTag(tok: string, i: nat, j: nat)
    requires i <= j < |Labels| && LabelAmount(tok, Labels[j].0).Some?
    ensures FirstFrom(tok, i) == Some((Labels[j].1, LabelAmount(tok, Labels[j].0).value))
    decreases j - i
  {
    if i < j {
      AtMostOneLabel(tok, i, j);
      FirstFromOfTag(tok, i + 1, j);
    }
  }

  /** A token that one label gives a stake bets exactly that. */
  lemma TokenBetOfTag(tok: string, j: nat)
    requires j < |Labels| && LabelAmount(tok, Labels[j].0).Some?
    ensures TokenBet(tok) == Some((Labels[j].1, LabelAmount(tok, Labels[j].0).value))
  {
    FirstFromOfTag(tok, 0, j);
  }

  /** A tag that differs from the token at some position does not fit it. */
  lemma TagMismatch(tok: string, tag: string, i: nat)
    requires i < |tok| && i < |tag| && tok[i] != tag[i]
    ensures LabelAmount(tok, tag).None?
  {
    if |tag| <= |tok| {
      assert tok[..|tag|][i] == tok[i];
    }
  }

  lemma {:induction false} ApplyLabelsIsFirst(bets: BetMap, tok: string, i: nat)
    requires i <= |Labels|
    ensures ApplyLabels(bets, tok, i) == match FirstFrom(tok, i)
                                         case Some(b) => bets[b.0 := b.1]
                                         case None => bets
    decreases |Labels| - i
  {
    if i < |Labels| {
      match LabelAmount(tok, Labels[i].0)
      case Some(a) =>
        var next := bets[Labels[i].1 := a];
        forall j | i + 1 <= j < |Labels| ensures LabelAmount(tok, Labels[j].0).None? {
          AtMostOneLabel(tok, i, j);
        }
        FirstFromNone(tok, i + 1);
        ApplyLabelsIsFirst(next, tok, i + 1);
      case None =>
        ApplyLabelsIsFirst(bets, tok, i + 1);
    }
  }

  /** One token overwrites at most the one kind its bet names, and leaves everything else. */
  lemma ApplyTokenIsTokenBet(bets: BetMap, tok: string)
    ensures ApplyToken(bets, tok) == match TokenBet(tok)
                                     case Some(b) => bets[b.0 := b.1]
                                     case None => bets
    ensures TokenBet(tok).Some? ==> TokenBet(tok).value.1 > 0
  {
    ApplyLabelsIsFirst(bets, tok, 0);
    if TokenBet(tok).Some? {
      FirstFromFound(tok, 0);
    }
  }

  /** The bets of `toks + [tok]` are those of `toks` updated by `tok`'s bet. */
  lemma ParseTokensSnoc(toks: seq<string>, tok: string)
    ensures ParseTokens(toks + [tok]) == match TokenBet(tok)
                                         case Some(b) => ParseTokens(toks)[b.0 := b.1]
                                         case None => ParseTokens(toks)
  {
    assert (toks + [tok])[..|toks|] == toks;
    ApplyTokenIsTokenBet(ParseTokens(toks), tok);
  }

  /** A kind is absent from the parse exactly when no token bets on it. */
  lemma {:induction false} KindAbsent(toks: seq<string>, k: BetKind)
    ensures k !in ParseTokens(toks) <==>
            forall i :: 0 <= i < |toks| ==> TokenBet(toks[i]).None? || TokenBet(toks[i]).value.0 != k
  {
    if toks != [] {
      var init, last := toks[..|toks| - 1], toks[|toks| - 1];
      assert toks == init + [last];
      ParseTokensSnoc(init, last);
      KindAbsent(init, k);
      assert forall i :: 0 <= i < |init| ==> toks[i] == init[i];
    }
  }

  /** A last token that does not bet on `k` leaves the stake on `k` as it was. */
  lemma ParseTokensKeeps(toks: seq<string>, k: BetKind)
    requires toks != []
    requires TokenBet(toks[|toks| - 1]).None? || TokenBet(toks[|toks| - 1]).value.0 != k
    ensures k in ParseTokens(toks) <==> k in ParseTokens(toks[..|toks| - 1])
    ensures k in ParseTokens(toks) ==> ParseTokens(toks)[k] == ParseTokens(toks[..|toks| - 1])[k]
  {
    ApplyTokenIsTokenBet(ParseTokens(toks[..|toks| - 1]), toks[|toks| - 1]);
  }

  /** The last token that bets on a kind decides its stake. */
  lemma {:induction false} LastTokenWins(toks: seq<string>, i: nat, k: BetKind, a: int)
    requires i < |toks| && TokenBet(toks[i]) == Some((k, a))
    requires forall j :: i < j < |toks| ==> TokenBet(toks[j]).None? || TokenBet(toks[j]).value.0 != k
    ensures k in ParseTokens(toks) && ParseTokens(toks)[k] == a
  {
    var init := toks[..|toks| - 1];
    if i < |toks| - 1 {
      ParseTokensKeeps(toks, k);
      forall j | i < j < |init| ensures TokenBet(init[j]).None? || TokenBet(init[j]).value.0 != k {
        assert init[j] == toks[j];
      }
      assert init[i] == toks[i];
      LastTokenWins(init, i, k, a);
    } else {
      ApplyTokenIsTokenBet(ParseTokens(init), toks[i]);
    }
  }

  /** Every tag followed by the decimal form of a positive amount bets that amount on the tag's kind. */
  lemma TokenRoundTrip(j: nat, n: nat)
    requires j < |Labels| && n > 0
    ensures TokenBet(Labels[j].0 + Text.Decimal(n)) == Some((Labels[j].1, n))
  {
    var tag := Labels[j].0;
    var tok := tag + Text.Decimal(n);
    Text.ParseIntDecimal(n);
    assert tok[..|tag|] == tag;
    assert tok[|tag|..] == Text.Decimal(n);
    TokenBetOfTag(tok, j);
  }

  /** A token starting with 庄对 bets on the banker pair, not on the banker. */
  lemma BankerPairExample()
    ensures TokenBet("庄对30") == Some((BankerPair, 30))
  {
    assert LabelAmount("庄对30", "庄对") == Some(30) by {
      assert "庄对30"[..2] == "庄对" && "庄对30"[2..] == "30";
      assert Text.DigitsValue("30") == 30 by { assert "30"[..1] == "3"; }
    }
    TokenBetOfTag("庄对30", 3);
  }

  /** The super six label carries a digit of its own: 超620 stakes 20. */
  lemma SuperSixExample()
    ensures TokenBet("超620") == Some((SuperSix, 20))
  {
    assert LabelAmount("超620", "超6") == Some(20) by {
      assert "超620"[..2] == "超6" && "超620"[2..] == "20";
      assert Text.DigitsValue("20") == 20 by { assert "20"[..1] == "2"; }
    }
    TokenBetOfTag("超620", 5);
  }

  /** A zero stake is dropped. */
  lemma ZeroStakeDropped()
    ensures TokenBet("闲0") == None
  {
    var tok := "闲0";
    assert LabelAmount(tok, "闲").None? by {
      assert tok[..1] == "闲" && tok[1..] == "0";
      assert Text.ParseInt("0") == Some(0);
    }
    TagMismatch(tok, "庄", 0);
    TagMismatch(tok, "和", 0);
    TagMismatch(tok, "庄对", 0);
    TagMismatch(tok, "闲对", 1);
    TagMismatch(tok, "超6", 0);
    TagMismatch(tok, "大", 0);
    TagMismatch(tok, "小", 0);
    FirstFromNone(tok, 0);
  }

  lemma CommandWordCut()
    ensures Text.RemoveAll("/baccarat 闲100 小50", Command) == " 闲100 小50"
  {
    var text, rest := "/baccarat 闲100 小50", " 闲100 小50";
    assert text[..|Command|] == Command && text[|Command|..] == rest;
    Text.AbsentFirstChar(rest, Command);
    Text.RemoveAllAbsent(rest, Command);
  }

  lemma CommandWords()
    ensures Text.Split(Text.Strip(" 闲100 小50")) == ["闲100", "小50"]
  {
    var rest := " 闲100 小50";
    var words := ["闲100", "小50"];
    assert Text.NoSpace(words[0]) && Text.NoSpace(words[1]);
    Text.SplitJoin(words);
    assert Text.JoinWords(words) == "闲100 小50 " by {
      assert Text.JoinWords(words[1..]) == "小50 " by {
        assert Text.JoinWords(words[1..][1..]) == "";
      }
    }
    assert " " + Text.JoinWords(words) == rest + " ";
    assert Text.Split(" " + Text.JoinWords(words)) == words by {
      assert (" " + Text.JoinWords(words))[1..] == Text.JoinWords(words);
    }
    assert Text.AllSpace(" ");
    Text.SplitIgnoresTrailingBlanks(rest, " ");
    Text.SplitStrip(rest);
  }

  lemma PlayerHundred()
    ensures TokenBet("闲100") == Some((Player, 100))
  {
    var w := "闲100";
    assert LabelAmount(w, "闲") == Some(100) by {
      assert w[..1] == "闲" && w[1..] == "100";
      assert Text.DigitsValue("100") == 100 by {
        assert "100"[..2] == "10" && "10"[..1] == "1";
      }
    }
    TokenBetOfTag(w, 0);
  }

  lemma SmallFifty()
    ensures TokenBet("小50") == Some((Small, 50))
  {
    var w := "小50";
    assert LabelAmount(w, "小") == Some(50) by {
      assert w[..1] == "小" && w[1..] == "50";
      assert Text.DigitsValue("50") == 50 by { assert "50"[..1] == "5"; }
    }
    TokenBetOfTag(w, 7);
  }

  /** Two tokens betting on different kinds give a wager on both. */
  lemma TwoTokens(t1: string, t2: string, k1: BetKind, a1: int, k2: BetKind, a2: int)
    requires TokenBet(t1) == Some((k1, a1)) && TokenBet(t2) == Some((k2, a2))
    ensures ParseTokens([t1, t2]) == map[k1 := a1][k2 := a2]
  {
    ParseTokensSnoc([], t1);
    assert [] + [t1] == [t1];
    ParseTokensSnoc([t1], t2);
    assert [t1] + [t2] == [t1, t2];
  }

  /** The whole parser on a command with two bets. */
  lemma CommandExample()
    ensures ParseBets("/baccarat 闲100 小50") == map[Player := 100, Small := 50]
  {
    CommandWordCut();
    CommandWords();
    PlayerHundred();
    SmallFifty();
    TwoTokens("闲100", "小50", Player, 100, Small, 50);
  }
}
