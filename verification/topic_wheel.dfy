/**
  The wheel animation's layout (app/components/TopicWheel.tsx): the list of
  strings the wheel scrolls through, the position it stops at, and the title
  shown for the drawn topic. The animation timing itself is not modelled.
 */
module TopicWheel {
  import opened Types
  import opened SpinRoute

  /** Decoy topics shown while the wheel turns. */
  const Placeholders: seq<string> := [
    "Создание системы управления задачами",
    "Разработка платформы для онлайн-обучения",
    "Построение инструмента для аналитики данных",
    "Реализация системы бронирования",
    "Создание приложения для фитнес-трекинга",
    "Разработка платформы для управления проектами",
    "Построение CRM-системы",
    "Создание инструмента для командной работы",
    "Разработка системы управления складом",
    "Построение платформы для электронной коммерции",
    "Создание системы мониторинга",
    "Разработка инструмента для автоматизации",
    "Построение платформы для обратной связи",
    "Создание системы управления контентом",
    "Разработка инструмента для планирования"
  ]

  const ItemHeight := 80
  const Cycles := 6

  /** The index the wheel stops at: after six full cycles of decoys. */
  const StopPosition := |Placeholders| * Cycles

  /** The scroll offset at rest: the stop item, centred. */
  const FinalOffset := StopPosition * ItemHeight + ItemHeight / 2

  /** Whether `s` has a blank line (two line feeds in a row) starting at `i`. */
  predicate BreakAt(s: string, i: int) {
    0 <= i && i + 1 < |s| && s[i] == '\n' && s[i + 1] == '\n'
  }

  /** `topic.split('\n\n')[0]`: the text before the first blank line, or all of it. */
  function FirstParagraph(t: string): (r: string)
    ensures |r| <= |t| && r == t[..|r|]
    ensures forall i :: 0 <= i < |r| ==> !BreakAt(t, i)
    ensures |r| < |t| ==> BreakAt(t, |r|)
  {
    if |t| < 2 then t
    else if t[0] == '\n' && t[1] == '\n' then ""
    else
      var rest := FirstParagraph(t[1..]);
      assert forall i :: 1 <= i < |t| - 1 ==> (BreakAt(t, i) <==> BreakAt(t[1..], i - 1));
      [t[0]] + rest
  }

  /** `getTopicTitle`: the first paragraph, or the whole text when that is empty. */
  function TopicTitle(topic: string): (r: string)
    ensures r == FirstParagraph(topic) || (FirstParagraph(topic) == "" && r == topic)
    ensures r == "" ==> topic == ""
  {
    var p := FirstParagraph(topic);
    if p == "" then topic else p
  }

  /** The first paragraph of `a`, a blank line and `b` is `a`, when `a` holds no
      blank line and does not end in a line feed. */
  lemma FirstParagraphOfJoin(a: string, b: string)
    requires forall i :: 0 <= i < |a| ==> !BreakAt(a, i)
    requires a == "" || a[|a| - 1] != '\n'
    ensures FirstParagraph(a + "\n\n" + b) == a
  {
    var t := a + "\n\n" + b;
    var r := FirstParagraph(t);
    assert BreakAt(t, |a|);
    forall i | 0 <= i < |a| ensures !BreakAt(t, i) {
      if i + 1 < |a| {
        assert !BreakAt(a, i);
      } else {
        assert t[i] == a[|a| - 1];
      }
    }
    assert |r| == |a|;
    assert r == t[..|a|];
  }

  /** The wheel shows the title of a topic drawn by the wheel itself, provided
      the title is non-empty, holds no blank line and does not end in a line feed. */
  lemma TitleOfDrawnTopic(t: Topic)
    requires t.title != "" && t.title[|t.title| - 1] != '\n'
    requires forall i :: 0 <= i < |t.title| ==> !BreakAt(t.title, i)
    ensures TopicTitle(ComposeTopic(t)) == t.title
  {
    var rest := t.description + "\n\nКритерии готовности: " + t.acceptanceCriteria;
    assert ComposeTopic(t) == t.title + "\n\n" + rest;
    FirstParagraphOfJoin(t.title, rest);
  }

  /** `n` copies of `xs`, one after another. */
  function Repeat(xs: seq<string>, n: nat): (r: seq<string>)
    ensures |r| == n * |xs|
  {
    if n == 0 then [] else xs + Repeat(xs, n - 1)
  }

  /** Item `j` of copy `k`. */
  lemma {:induction false} RepeatAt(xs: seq<string>, n: nat, k: nat, j: nat)
    requires k < n && j < |xs|
    ensures k * |xs| + j < |Repeat(xs, n)|
    ensures Repeat(xs, n)[k * |xs| + j] == xs[j]
  {
    assert n * |xs| == (n - 1) * |xs| + |xs|;
    if k > 0 {
      RepeatAt(xs, n - 1, k - 1, j);
      assert k * |xs| + j == (k - 1) * |xs| + j + |xs|;
    }
  }

  /** Whether `finalTopic ? ... : ...` takes the first branch. */
  predicate HasFinal(finalTopic: Option<string>) {
    finalTopic.Some? && finalTopic.value != ""
  }

  /** `topicsWithFinal` over a list of decoys: with a final topic, six decoy
      cycles, its title right after them, and one more cycle; without, ten
      decoy cycles. */
  function Layout(decoys: seq<string>, finalTopic: Option<string>): (r: seq<string>)
    ensures HasFinal(finalTopic) ==>
      |r| == Cycles * |decoys| + 1 + |decoys| && r[Cycles * |decoys|] == TopicTitle(finalTopic.value)
    ensures !HasFinal(finalTopic) ==> |r| == 10 * |decoys|
  {
    if HasFinal(finalTopic) then Repeat(decoys, Cycles) + [TopicTitle(finalTopic.value)] + decoys
    else Repeat(decoys, 10)
  }

  /** Item `j` of decoy cycle `k` is decoy `j`: six cycles before a final
      topic, ten without one. */
  lemma CycleItem(decoys: seq<string>, finalTopic: Option<string>, k: nat, j: nat)
    requires k < (if HasFinal(finalTopic) then Cycles else 10) && j < |decoys|
    ensures k * |decoys| + j < |Layout(decoys, finalTopic)|
    ensures Layout(decoys, finalTopic)[k * |decoys| + j] == decoys[j]
  {
    RepeatAt(decoys, if HasFinal(finalTopic) then Cycles else 10, k, j);
  }

  /** After a final topic the decoys follow once more, in order. */
  lemma TailItem(decoys: seq<string>, finalTopic: Option<string>, j: nat)
    requires HasFinal(finalTopic) && j < |decoys|
    ensures Layout(decoys, finalTopic)[Cycles * |decoys| + 1 + j] == decoys[j]
  {
    var r := Repeat(decoys, Cycles) + [TopicTitle(finalTopic.value)];
    assert |r| == Cycles * |decoys| + 1;
  }

  /** The wheel's item list, with the application's decoys. */
  function WheelItems(finalTopic: Option<string>): seq<string> {
    Layout(Placeholders, finalTopic)
  }

  /** At rest the wheel's offset lies in the middle of the item that holds the
      drawn topic's title. */
  lemma WheelStopsOnFinalTopic(finalTopic: string)
    requires finalTopic != ""
    ensures FinalOffset / ItemHeight == StopPosition
    ensures FinalOffset % ItemHeight == ItemHeight / 2
    ensures WheelItems(Some(finalTopic))[FinalOffset / ItemHeight] == TopicTitle(finalTopic)
    ensures |WheelItems(Some(finalTopic))| == 106 && |WheelItems(None)| == 150
  {
  }
}
