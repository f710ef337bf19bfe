/**
 * The "local model" of the chat tutor: an ordered keyword matcher over the
 * lower-cased user message, followed by an HTML-code rule and a fallback.
 * The random choice among three canned variants is an explicit `Pick`.
 */
module LocalReply {
  import opened Text

  /** Which of three canned variants the random draw `Math.floor(Math.random() * 3)` chose. */
  type Pick = i: nat | i < 3

  /** The topics of the nine keyword rules, in declaration order. */
  datatype Topic =
    | HelpTopic | BasicTopic | TagsTopic | DivTopic | FormTopic
    | TableTopic | SemanticTopic | ExerciseTopic | GreetingTopic

  /** A reply, as the category of canned text it is drawn from. */
  datatype Reply =
    | Help | Basic | Tags | Div | Form | Table | Semantic | Exercise
    | Greeting(variant: Pick)
    | CodeFeedback(variant: Pick)
    | Default(variant: Pick)

  /** A keyword rule: it fires when the message contains one of `substrings` or equals one of `exactly`. */
  datatype Rule = Rule(topic: Topic, substrings: seq<string>, exactly: seq<string>)

  predicate RuleMatches(rule: Rule, msg: string)
  {
    (exists k :: k in rule.substrings && Contains(msg, k)) || msg in rule.exactly
  }

  /** The keyword rules as a table, in the order `generateLocalResponse` tries them. */
  const Rules: seq<Rule> := [
    Rule(HelpTopic, ["帮助", "help"], ["?", "？"]),
    Rule(BasicTopic, ["基础", "html基础", "入门"], ["html"]),
    Rule(TagsTopic, ["标签", "tag"], []),
    Rule(DivTopic, ["div", "容器", "盒子"], []),
    Rule(FormTopic, ["表单", "form", "输入"], []),
    Rule(TableTopic, ["表格", "table"], []),
    Rule(SemanticTopic, ["语义", "semantic", "结构"], []),
    Rule(ExerciseTopic, ["练习", "任务", "作业"], []),
    Rule(GreetingTopic, ["你好", "嗨", "hi", "hello"], [])
  ]

  /** Index of the first rule at or after `i` that matches `msg`, or `|rules|` when none does. */
  function FirstMatchFrom(rules: seq<Rule>, msg: string, i: nat): (k: nat)
    requires i <= |rules|
    ensures i <= k <= |rules|
    ensures forall j :: i <= j < k ==> !RuleMatches(rules[j], msg)
    ensures k < |rules| ==> RuleMatches(rules[k], msg)
    decreases |rules| - i
  {
    if i == |rules| || RuleMatches(rules[i], msg) then i else FirstMatchFrom(rules, msg, i + 1)
  }

  /** Index of the first keyword rule that fires on `msg`, or `|Rules|`. */
  function FirstMatch(msg: string): (k: nat)
    ensures k <= |Rules|
  {
    FirstMatchFrom(Rules, msg, 0)
  }

  predicate NoKeyword(msg: string)
  {
    forall j :: 0 <= j < |Rules| ==> !RuleMatches(Rules[j], msg)
  }

  function TopicReply(t: Topic, pick: Pick): Reply
  {
    match t
    case HelpTopic => Help
    case BasicTopic => Basic
    case TagsTopic => Tags
    case DivTopic => Div
    case FormTopic => Form
    case TableTopic => Table
    case SemanticTopic => Semantic
    case ExerciseTopic => Exercise
    case GreetingTopic => Greeting(pick)
  }

  /**
   * The reply the rule table chooses: the first matching keyword rule, else
   * code feedback for an HTML snippet, else the fallback.
   */
  function TableReply(userMessage: string, pick: Pick): Reply
  {
    var msg := Lower(userMessage);
    var k := FirstMatch(msg);
    if k < |Rules| then TopicReply(Rules[k].topic, pick)
    else if ContainsHtmlCode(userMessage) then CodeFeedback(pick)
    else Default(pick)
  }

  // What each row of the rule table fires on, spelled out as the conditions of `generateLocalResponse`.

  lemma HelpRow(msg: string)
    ensures RuleMatches(Rules[0], msg) <==> Contains(msg, "帮助") || Contains(msg, "help") || msg == "?" || msg == "？"
  {
  }

  lemma BasicRow(msg: string)
    ensures RuleMatches(Rules[1], msg) <==> Contains(msg, "基础") || Contains(msg, "html基础") || Contains(msg, "入门") || msg == "html"
  {
  }

  lemma TagsRow(msg: string)
    ensures RuleMatches(Rules[2], msg) <==> Contains(msg, "标签") || Contains(msg, "tag")
  {
  }

  lemma DivRow(msg: string)
    ensures RuleMatches(Rules[3], msg) <==> Contains(msg, "div") || Contains(msg, "容器") || Contains(msg, "盒子")
  {
  }

  lemma FormRow(msg: string)
    ensures RuleMatches(Rules[4], msg) <==> Contains(msg, "表单") || Contains(msg, "form") || Contains(msg, "输入")
  {
  }

  lemma TableRow(msg: string)
    ensures RuleMatches(Rules[5], msg) <==> Contains(msg, "表格") || Contains(msg, "table")
  {
  }

  lemma SemanticRow(msg: string)
    ensures RuleMatches(Rules[6], msg) <==> Contains(msg, "语义") || Contains(msg, "semantic") || Contains(msg, "结构")
  {
  }

  lemma ExerciseRow(msg: string)
    ensures RuleMatches(Rules[7], msg) <==> Contains(msg, "练习") || Contains(msg, "任务") || Contains(msg, "作业")
  {
  }

  lemma GreetingRow(msg: string)
    ensures RuleMatches(Rules[8], msg) <==> Contains(msg, "你好") || Contains(msg, "嗨") || Contains(msg, "hi") || Contains(msg, "hello")
  {
  }

  /** The first matching rule is the one that matches with no match before it. */
  lemma FirstMatchIs(msg: string, j: nat)
    requires j <= |Rules|
    requires forall i :: 0 <= i < j ==> !RuleMatches(Rules[i], msg)
    requires j < |Rules| ==> RuleMatches(Rules[j], msg)
    ensures FirstMatch(msg) == j
  {
  }

  /**
   * The text looks like HTML: it has a `<`, a `>` and a closing-tag marker,
   * either `</` or the self-closing `/>`.
   */
  function ContainsHtmlCode(text: string): (b: bool)
    ensures b <==>
      && '<' in text && '>' in text
      && exists i :: 0 <= i < |text| - 1 &&
           ((text[i] == '<' && text[i + 1] == '/') || (text[i] == '/' && text[i + 1] == '>'))
  {
    ContainsChar(text, '<');
    ContainsChar(text, '>');
    ContainsPair(text, '<', '/');
    ContainsPair(text, '/', '>');
    Contains(text, "<") && Contains(text, ">") && (Contains(text, "</") || Contains(text, "/>"))
  }

  /**
   * `generateLocalResponse`'s cascade of `if`s over the lower-cased message; it picks the
   * same reply as the declarative rule table.
   */
  function GenerateLocalResponse(userMessage: string, pick: Pick): (r: Reply)
    ensures (r.Greeting? || r.CodeFeedback? || r.Default?) ==> r.variant == pick
  {
    var msg := Lower(userMessage);
    if Contains(msg, "帮助") || Contains(msg, "help") || msg == "?" || msg == "？" then Help
    else if Contains(msg, "基础") || Contains(msg, "html基础") || Contains(msg, "入门") || msg == "html" then Basic
    else if Contains(msg, "标签") || Contains(msg, "tag") then Tags
    else if Contains(msg, "div") || Contains(msg, "容器") || Contains(msg, "盒子") then Div
    else if Contains(msg, "表单") || Contains(msg, "form") || Contains(msg, "输入") then Form
    else if Contains(msg, "表格") || Contains(msg, "table") then Table
    else if Contains(msg, "语义") || Contains(msg, "semantic") || Contains(msg, "结构") then Semantic
    else if Contains(msg, "练习") || Contains(msg, "任务") || Contains(msg, "作业") then Exercise
    else if Contains(msg, "你好") || Contains(msg, "嗨") || Contains(msg, "hi") || Contains(msg, "hello") then Greeting(pick)
    else if ContainsHtmlCode(userMessage) then CodeFeedback(pick)
    else Default(pick)
  }

  /**
   * Help wins over every other rule: a message that asks for help gets the
   * help text whatever other keywords or markup it holds.
   */
  lemma HelpFires(userMessage: string, pick: Pick)
    requires var msg := Lower(userMessage);
      Contains(msg, "帮助") || Contains(msg, "help") || msg == "?" || msg == "？"
    ensures GenerateLocalResponse(userMessage, pick) == Help
    ensures TableReply(userMessage, pick) == Help
  {
    var msg := Lower(userMessage);
    HelpRow(msg);
    FirstMatchIs(msg, 0);
  }

  lemma BasicFires(userMessage: string, pick: Pick)
    requires FirstMatch(Lower(userMessage)) == 1
    ensures GenerateLocalResponse(userMessage, pick) == Basic
    ensures TableReply(userMessage, pick) == Basic
  {
    var msg := Lower(userMessage);
    HelpRow(msg); BasicRow(msg);
    assert !RuleMatches(Rules[0], msg);
  }

  lemma TagsFires(userMessage: string, pick: Pick)
    requires FirstMatch(Lower(userMessage)) == 2
    ensures GenerateLocalResponse(userMessage, pick) == Tags
    ensures TableReply(userMessage, pick) == Tags
  {
    var msg := Lower(userMessage);
    HelpRow(msg); BasicRow(msg); TagsRow(msg);
    assert !RuleMatches(Rules[0], msg);
    assert !RuleMatches(Rules[1], msg);
  }

  lemma DivFires(userMessage: string, pick: Pick)
    requires FirstMatch(Lower(userMessage)) == 3
    ensures GenerateLocalResponse(userMessage, pick) == Div
    ensures TableReply(userMessage, pick) == Div
  {
    var msg := Lower(userMessage);
    HelpRow(msg); BasicRow(msg); TagsRow(msg); DivRow(msg);
    assert !RuleMatches(Rules[0], msg);
    assert !RuleMatches(Rules[1], msg);
    assert !RuleMatches(Rules[2], msg);
  }

  lemma FormFires(userMessage: string, pick: Pick)
    requires FirstMatch(Lower(userMessage)) == 4
    ensures GenerateLocalResponse(userMessage, pick) == Form
    ensures TableReply(userMessage, pick) == Form
  {
    var msg := Lower(userMessage);
    HelpRow(msg); BasicRow(msg); TagsRow(msg); DivRow(msg); FormRow(msg);
    assert !RuleMatches(Rules[0], msg);
    assert !RuleMatches(Rules[1], msg);
    assert !RuleMatches(Rules[2], msg);
    assert !RuleMatches(Rules[3], msg);
  }

  lemma TableFires(userMessage: string, pick: Pick)
    requires FirstMatch(Lower(userMessage)) == 5
    ensures GenerateLocalResponse(userMessage, pick) == Table
    ensures TableReply(userMessage, pick) == Table
  {
    var msg := Lower(userMessage);
    HelpRow(msg); BasicRow(msg); TagsRow(msg); DivRow(msg); FormRow(msg); TableRow(msg);
    assert !RuleMatches(Rules[0], msg);
    assert !RuleMatches(Rules[1], msg);
    assert !RuleMatches(Rules[2], msg);
    assert !RuleMatches(Rules[3], msg);
    assert !RuleMatches(Rules[4], msg);
  }

  lemma SemanticFires(userMessage: string, pick: Pick)
    requires FirstMatch(Lower(userMessage)) == 6
    ensures GenerateLocalResponse(userMessage, pick) == Semantic
    ensures TableReply(userMessage, pick) == Semantic
  {
    var msg := Lower(userMessage);
    HelpRow(msg); BasicRow(msg); TagsRow(msg); DivRow(msg); FormRow(msg); TableRow(msg); SemanticRow(msg);
    assert !RuleMatches(Rules[0], msg);
    assert !RuleMatches(Rules[1], msg);
    assert !RuleMatches(Rules[2], msg);
    assert !RuleMatches(Rules[3], msg);
    assert !RuleMatches(Rules[4], msg);
    assert !RuleMatches(Rules[5], msg);
  }

  lemma ExerciseFires(userMessage: string, pick: Pick)
    requires FirstMatch(Lower(userMessage)) == 7
    ensures GenerateLocalResponse(userMessage, pick) == Exercise
    ensures TableReply(userMessage, pick) == Exercise
  {
    var msg := Lower(userMessage);
    HelpRow(msg); BasicRow(msg); TagsRow(msg); DivRow(msg); FormRow(msg); TableRow(msg); SemanticRow(msg); ExerciseRow(msg);
    assert !RuleMatches(Rules[0], msg);
    assert !RuleMatches(Rules[1], msg);
    assert !RuleMatches(Rules[2], msg);
    assert !RuleMatches(Rules[3], msg);
    assert !RuleMatches(Rules[4], msg);
    assert !RuleMatches(Rules[5], msg);
    assert !RuleMatches(Rules[6], msg);
  }

  lemma GreetingFires(userMessage: string, pick: Pick)
    requires FirstMatch(Lower(userMessage)) == 8
    ensures GenerateLocalResponse(userMessage, pick) == Greeting(pick)
    ensures TableReply(userMessage, pick) == Greeting(pick)
  {
    var msg := Lower(userMessage);
    HelpRow(msg); BasicRow(msg); TagsRow(msg); DivRow(msg); FormRow(msg); TableRow(msg); SemanticRow(msg); ExerciseRow(msg); GreetingRow(msg);
    assert !RuleMatches(Rules[0], msg);
    assert !RuleMatches(Rules[1], msg);
    assert !RuleMatches(Rules[2], msg);
    assert !RuleMatches(Rules[3], msg);
    assert !RuleMatches(Rules[4], msg);
    assert !RuleMatches(Rules[5], msg);
    assert !RuleMatches(Rules[6], msg);
    assert !RuleMatches(Rules[7], msg);
  }

  lemma NoKeywordFires(userMessage: string, pick: Pick)
    requires FirstMatch(Lower(userMessage)) == |Rules|
    ensures GenerateLocalResponse(userMessage, pick) == TableReply(userMessage, pick)
    ensures GenerateLocalResponse(userMessage, pick) ==
      if ContainsHtmlCode(userMessage) then CodeFeedback(pick) else Default(pick)
  {
    var msg := Lower(userMessage);
    HelpRow(msg); BasicRow(msg); TagsRow(msg); DivRow(msg); FormRow(msg); TableRow(msg); SemanticRow(msg); ExerciseRow(msg); GreetingRow(msg);
    assert !RuleMatches(Rules[0], msg);
    assert !RuleMatches(Rules[1], msg);
    assert !RuleMatches(Rules[2], msg);
    assert !RuleMatches(Rules[3], msg);
    assert !RuleMatches(Rules[4], msg);
    assert !RuleMatches(Rules[5], msg);
    assert !RuleMatches(Rules[6], msg);
    assert !RuleMatches(Rules[7], msg);
    assert !RuleMatches(Rules[8], msg);
  }

  /** The cascade of `if`s and the rule table agree on every message and every draw. */
  lemma GenerateMatchesTable(userMessage: string, pick: Pick)
    ensures GenerateLocalResponse(userMessage, pick) == TableReply(userMessage, pick)
  {
    var k := FirstMatch(Lower(userMessage));
    if k == 0 { HelpRow(Lower(userMessage)); HelpFires(userMessage, pick); }
    else if k == 1 { BasicFires(userMessage, pick); }
    else if k == 2 { TagsFires(userMessage, pick); }
    else if k == 3 { DivFires(userMessage, pick); }
    else if k == 4 { FormFires(userMessage, pick); }
    else if k == 5 { TableFires(userMessage, pick); }
    else if k == 6 { SemanticFires(userMessage, pick); }
    else if k == 7 { ExerciseFires(userMessage, pick); }
    else if k == 8 { GreetingFires(userMessage, pick); }
    else { NoKeywordFires(userMessage, pick); }
  }

  /** Keyword rules take precedence over the HTML-code rule and the fallback. */
  lemma KeywordBeforeCode(userMessage: string, pick: Pick)
    requires !NoKeyword(Lower(userMessage))
    ensures var r := GenerateLocalResponse(userMessage, pick); !r.CodeFeedback? && !r.Default?
  {
    GenerateMatchesTable(userMessage, pick);
    var msg := Lower(userMessage);
    var j :| 0 <= j < |Rules| && RuleMatches(Rules[j], msg);
    assert FirstMatch(msg) <= j;
  }

  /** Code feedback is given exactly when no keyword fires and the message looks like HTML. */
  lemma CodeFeedbackExactly(userMessage: string, pick: Pick)
    ensures GenerateLocalResponse(userMessage, pick).CodeFeedback? <==>
      NoKeyword(Lower(userMessage)) && ContainsHtmlCode(userMessage)
    ensures GenerateLocalResponse(userMessage, pick).CodeFeedback? ==>
      GenerateLocalResponse(userMessage, pick).variant == pick
  {
    GenerateMatchesTable(userMessage, pick);
    if !NoKeyword(Lower(userMessage)) {
      KeywordBeforeCode(userMessage, pick);
    }
  }

  /** The fallback is given exactly when no keyword fires and the message does not look like HTML. */
  lemma DefaultExactly(userMessage: string, pick: Pick)
    ensures GenerateLocalResponse(userMessage, pick).Default? <==>
      NoKeyword(Lower(userMessage)) && !ContainsHtmlCode(userMessage)
    ensures GenerateLocalResponse(userMessage, pick).Default? ==>
      GenerateLocalResponse(userMessage, pick).variant == pick
  {
    GenerateMatchesTable(userMessage, pick);
    if !NoKeyword(Lower(userMessage)) {
      KeywordBeforeCode(userMessage, pick);
    }
  }

  /**
   * A message without `h`, `t` and the first characters of the Chinese keywords
   * of the first three rules fires none of them; if it holds `div` the `div`
   * rule is the first to fire.
   */
  lemma DivRuleFirst(msg: string)
    requires '帮' !in msg && 'h' !in msg && '基' !in msg && '入' !in msg && '标' !in msg && 't' !in msg
    requires Contains(msg, "div")
    ensures FirstMatch(msg) == 3
  {
    AbsentChar(msg, "帮助", '帮'); AbsentChar(msg, "help", 'h');
    AbsentChar(msg, "基础", '基'); AbsentChar(msg, "html基础", 'h'); AbsentChar(msg, "入门", '入');
    AbsentChar(msg, "标签", '标'); AbsentChar(msg, "tag", 't');
    assert msg != "html" by {
      assert "html"[0] == 'h';
    }
    HelpRow(msg); BasicRow(msg); TagsRow(msg); DivRow(msg);
    FirstMatchIs(msg, 3);
  }

  lemma DivSnippetFirstMatch()
    ensures FirstMatch("<div></div>") == 3
  {
    assert OccursAt("<div></div>", "div", 1);
    DivRuleFirst("<div></div>");
  }

  lemma DivSnippetIsHtml()
    ensures ContainsHtmlCode("<div></div>")
  {
    assert OccursAt("<div></div>", "<", 0);
    assert OccursAt("<div></div>", ">", 4);
    assert OccursAt("<div></div>", "</", 5);
  }

  lemma DivSnippetLower()
    ensures Lower("<div></div>") == "<div></div>"
  {
    LowerOfLower("<div></div>");
  }

  /** An HTML snippet that names a keyword gets that keyword's lesson, not code feedback. */
  lemma DivSnippetGetsLesson(pick: Pick)
    ensures ContainsHtmlCode("<div></div>")
    ensures GenerateLocalResponse("<div></div>", pick) == Div
  {
    DivSnippetIsHtml();
    DivSnippetLower();
    DivSnippetFirstMatch();
    DivFires("<div></div>", pick);
  }

  /** The message `div` gets the div lesson. */
  lemma DivGetsLesson(pick: Pick)
    ensures LocalResponse("div", pick) == DivLesson
  {
    assert Lower("div") == "div";
    assert OccursAt("div", "div", 0);
    DivRuleFirst("div");
    DivFires("div", pick);
  }

  /** The reply does not depend on the case of ASCII letters in the message. */
  lemma CaseInsensitive(userMessage: string, pick: Pick)
    ensures GenerateLocalResponse(Lower(userMessage), pick) == GenerateLocalResponse(userMessage, pick)
  {
    GenerateMatchesTable(userMessage, pick);
    GenerateMatchesTable(Lower(userMessage), pick);
    LowerIdempotent(userMessage);
    LowerKeepsLetterFree(userMessage, "<");
    LowerKeepsLetterFree(userMessage, ">");
    LowerKeepsLetterFree(userMessage, "</");
    LowerKeepsLetterFree(userMessage, "/>");
  }

  /** The random draw only chooses among variants: it never changes the category. */
  lemma DrawChoosesVariantOnly(userMessage: string, p: Pick, q: Pick)
    ensures var a, b := GenerateLocalResponse(userMessage, p), GenerateLocalResponse(userMessage, q);
      && (a.Greeting? <==> b.Greeting?)
      && (a.CodeFeedback? <==> b.CodeFeedback?)
      && (a.Default? <==> b.Default?)
      && (!a.Greeting? && !a.CodeFeedback? && !a.Default? ==> a == b)
  {
    GenerateMatchesTable(userMessage, p);
    GenerateMatchesTable(userMessage, q);
  }

  /** Every message with `html基础` already holds `基础`, so that keyword of the basics rule never decides anything. */
  lemma HtmlBasicsKeywordRedundant(msg: string)
    ensures Contains(msg, "html基础") ==> Contains(msg, "基础")
  {
    if Contains(msg, "html基础") {
      var i: nat :| OccursAt(msg, "html基础", i);
      assert msg[i + 4..i + 6] == msg[i..i + 6][4..6];
      assert OccursAt(msg, "基础", i + 4);
    }
  }

  // ---------------------------------------------------------------------
  // The canned texts. The lessons and the help text are long markdown
  // documents; the model keeps only their opening line, which is enough to
  // tell them apart. The short variants, the code advice and the fallback
  // footer are kept in full.
  // ---------------------------------------------------------------------

  const HelpText: string := "我可以帮你学习以下内容："
  const BasicLesson: string := "太棒了！让我来给你介绍 HTML 的基础！🎉"
  const TagsLesson: string := "好的！让我介绍一些常用的 HTML 标签！📚"
  const DivLesson: string := "`<div>` 是一个容器标签，超级有用！📦"
  const FormLesson: string := "表单是收集用户输入的重要工具！📝"
  const TableLesson: string := "表格可以让数据更有条理！📊"
  const SemanticLesson: string := "语义化标签让代码更有意义！🏗️"
  const ExerciseTask: string := "来做个小练习吧！💪"

  const Greetings: seq<string> := [
    "👋 嘿！很高兴见到你！今天想学点什么呢？我可以教你 HTML 的基础知识！",
    "🎉 欢迎来到 HTML 学习之旅！有什么问题尽管问我！",
    "😊 你好呀！准备好探索 HTML 的神奇世界了吗？"
  ]

  const GoodCode: seq<string> := [
    "🎉 太棒了！你的代码写得很好！",
    "👏 非常不错！你已经掌握了这个知识点！",
    "✅ 完美！代码结构很清晰！"
  ]

  const Fallbacks: seq<string> := [
    "🤔 好问题！让我想想怎么回答你...",
    "📚 这个问题很有意思！让我来解释一下...",
    "💭 嗯，让我用简单的方式告诉你..."
  ]

  /** The advice that follows every code-feedback opener. */
  const CodeAdvice: string :=
    "\n\n你的代码看起来很棒！\n\n**一些小建议：**\n1. 确保所有标签都正确闭合\n2. 可以尝试添加更多样式让页面更美观\n3. 继续练习，你会越来越厉害！\n\n还有什么想学的吗？输入\"帮助\"查看更多内容！😊"

  /** The suggestion footer that follows every fallback opener. */
  const SuggestionFooter: string :=
    "\n\n如果你想了解具体内容，可以输入：\n- \"基础\" - 学习 HTML 基础\n- \"标签\" - 学习常用标签\n- \"表单\" - 学习表单制作\n- \"练习\" - 获取编程任务\n\n或者直接发送你的 HTML 代码，我会帮你检查！🚀"

  /** The text shown for a reply. */
  function ReplyText(r: Reply): string
  {
    match r
    case Help => HelpText
    case Basic => BasicLesson
    case Tags => TagsLesson
    case Div => DivLesson
    case Form => FormLesson
    case Table => TableLesson
    case Semantic => SemanticLesson
    case Exercise => ExerciseTask
    case Greeting(i) => Greetings[i]
    case CodeFeedback(i) => GoodCode[i] + CodeAdvice
    case Default(i) => Fallbacks[i] + SuggestionFooter
  }

  /** `generateLocalResponse`: the text the local model answers with. */
  function LocalResponse(userMessage: string, pick: Pick): (text: string)
    ensures var r := GenerateLocalResponse(userMessage, pick);
      && (r.Greeting? ==> text == Greetings[pick])
      && (r.CodeFeedback? ==> text == GoodCode[pick] + CodeAdvice)
      && (r.Default? ==> text == Fallbacks[pick] + SuggestionFooter)
  {
    ReplyText(GenerateLocalResponse(userMessage, pick))
  }

  /**
   * A message that fires no keyword and looks like HTML is answered with one
   * of the three praise openers followed by the fixed advice.
   */
  lemma CodeFeedbackText(userMessage: string, pick: Pick)
    requires NoKeyword(Lower(userMessage)) && ContainsHtmlCode(userMessage)
    ensures exists i :: 0 <= i < |GoodCode| && LocalResponse(userMessage, pick) == GoodCode[i] + CodeAdvice
    ensures GoodCode[pick] <= LocalResponse(userMessage, pick)
  {
    CodeFeedbackExactly(userMessage, pick);
    assert LocalResponse(userMessage, pick) == GoodCode[pick] + CodeAdvice;
  }

  /**
   * A message that fires no keyword and does not look like HTML is answered
   * with one of the three fallback openers followed by the suggestion footer.
   */
  lemma DefaultText(userMessage: string, pick: Pick)
    requires NoKeyword(Lower(userMessage)) && !ContainsHtmlCode(userMessage)
    ensures exists i :: 0 <= i < |Fallbacks| && LocalResponse(userMessage, pick) == Fallbacks[i] + SuggestionFooter
    ensures Fallbacks[pick] <= LocalResponse(userMessage, pick)
  {
    DefaultExactly(userMessage, pick);
    assert LocalResponse(userMessage, pick) == Fallbacks[pick] + SuggestionFooter;
  }
}
