/** `get_quick_fallback`: canned replies chosen by case-insensitive keyword
    matching. Four categories are tried in a fixed order; the first one with
    a keyword occurring anywhere in the lower-cased input wins. */
module QuickFallback {
  import opened Text

  datatype Option<T> = None | Some(value: T)

  datatype Category = Category(keywords: seq<string>, reply: string)

  const Greeting: Category := Category(
    ["hello", "hi", "hey", "greetings"],
    "Hello! Great to meet you! I'm HELIOS, ready to chat about anything. What's on your mind?")

  const Food: Category := Category(
    ["dinner", "eat", "food", "hungry", "meal"],
    "For dinner, you could try:\n• Something quick: pasta, stir-fry, or sandwiches\n• Comfort food: pizza, burgers, or soup\n• Healthy: salad, grilled chicken, or fish\n• Order in: your favorite takeout!\n\nWhat sounds good to you?")

  const Music: Category := Category(
    ["song", "music", "favorite", "listen"],
    "I don't have personal preferences, but I can suggest some great music! What genre do you like? Rock, pop, hip-hop, electronic, classical? Or tell me your mood and I'll suggest something!")

  const Identity: Category := Category(
    ["what do you enjoy", "what are you", "who are you"],
    "I'm HELIOS! I enjoy having conversations, helping with questions, and learning about what interests you. I'm curious about your thoughts and happy to chat about anything!")

  /** The categories in the order the code tries them. */
  const Categories: seq<Category> := [Greeting, Food, Music, Identity]

  /** Some keyword of `c` occurs in `text` (the `any(...)` test). */
  predicate Matches(c: Category, text: string) {
    AnyContains(text, c.keywords)
  }

  /** `get_quick_fallback(user_input)` as written: four tests in a row. */
  function GetQuickFallback(userInput: string): Option<string> {
    var lower := Lower(userInput);
    if Matches(Greeting, lower) then Some(Greeting.reply)
    else if Matches(Food, lower) then Some(Food.reply)
    else if Matches(Music, lower) then Some(Music.reply)
    else if Matches(Identity, lower) then Some(Identity.reply)
    else None
  }

  /** Reference rule: the position of the first category that matches. */
  function FirstMatch(cats: seq<Category>, text: string): (k: Option<nat>)
    ensures k.Some? ==> k.value < |cats| && Matches(cats[k.value], text)
    ensures k.Some? ==> forall j :: 0 <= j < k.value ==> !Matches(cats[j], text)
    ensures k.None? <==> forall j :: 0 <= j < |cats| ==> !Matches(cats[j], text)
  {
    if cats == [] then None
    else if Matches(cats[0], text) then Some(0)
    else match FirstMatch(cats[1..], text)
      case None => None
      case Some(j) => Some(j + 1)
  }

  /** The chain of tests is the first-match rule over the ordered table. */
  lemma QuickFallbackIsFirstMatch(userInput: string)
    ensures GetQuickFallback(userInput) ==
      match FirstMatch(Categories, Lower(userInput))
      case None => None
      case Some(k) => Some(Categories[k].reply)
  {
    var lower := Lower(userInput);
    var m := FirstMatch(Categories, lower);
    assert Categories[0] == Greeting && Categories[1] == Food;
    assert Categories[2] == Music && Categories[3] == Identity;
    if m.Some? {
      assert m.value < 4;
    }
  }

  /** No reply exactly when no keyword of any category occurs in the
      lower-cased input. */
  lemma QuickFallbackNone(userInput: string)
    ensures GetQuickFallback(userInput) == None <==>
      forall c, w :: c in Categories && w in c.keywords ==> !OccursIn(w, Lower(userInput))
  {
    var lower := Lower(userInput);
    QuickFallbackIsFirstMatch(userInput);
    forall c | c in Categories
      ensures Matches(c, lower) <==> exists k :: 0 <= k < |c.keywords| && OccursIn(c.keywords[k], lower)
    {
      AnyContainsMeans(lower, c.keywords);
    }
    assert forall c :: c in Categories <==> exists j :: 0 <= j < |Categories| && Categories[j] == c;
  }

  /** Matching ignores case: the reply for an input and for its lower-cased
      form are the same. */
  lemma QuickFallbackCaseInsensitive(userInput: string)
    ensures GetQuickFallback(Lower(userInput)) == GetQuickFallback(userInput)
  {
    LowerIdempotent(userInput);
  }

  /** A keyword anywhere in the input, in any case, yields its category's
      reply unless an earlier category also matches. */
  lemma KeywordSelectsCategory(userInput: string, k: nat, w: string)
    requires k < |Categories| && w in Categories[k].keywords
    requires OccursIn(w, Lower(userInput))
    requires forall j :: 0 <= j < k ==> !Matches(Categories[j], Lower(userInput))
    ensures GetQuickFallback(userInput) == Some(Categories[k].reply)
  {
    var lower := Lower(userInput);
    AnyContainsMeans(lower, Categories[k].keywords);
    QuickFallbackIsFirstMatch(userInput);
  }

  /** A greeting outranks food: "Hi, DINNER?" gets the greeting. */
  lemma GreetingBeforeFood()
    ensures GetQuickFallback("Hi, DINNER?") == Some(Greeting.reply)
  {
    var lower := Lower("Hi, DINNER?");
    LowerSpec("Hi, DINNER?");
    assert lower[0] == 'h' && lower[1] == 'i';
    assert OccursAt("hi", lower, 0);
    KeywordSelectsCategory("Hi, DINNER?", 0, "hi");
  }

  /** Keywords match inside words, not as whole words: "THIS" holds "hi". */
  lemma KeywordInsideWord()
    ensures GetQuickFallback("THIS") == Some(Greeting.reply)
  {
    var lower := Lower("THIS");
    LowerSpec("THIS");
    assert lower[1..3] == "hi";
    assert OccursAt("hi", lower, 1);
    KeywordSelectsCategory("THIS", 0, "hi");
  }

  /** An input with no keyword gets no canned reply. */
  lemma NoKeywordNoReply()
    ensures GetQuickFallback("OK") == None
  {
    var lower := Lower("OK");
    LowerSpec("OK");
    assert lower == "ok";
  }
}
