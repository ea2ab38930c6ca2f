/** Word pairs: validation and parsing of a "majority | minority"
    submission, and random generation of a related pair from a word
    generator (src/classes/WordSelector.ts). */
module WordSelector {
  import opened Common
  import opened Seqs
  import opened Text

  /** The two secret words of a game. */
  datatype WordPair = WordPair(majorityWord: string, minorityWord: string)

  /** Longest accepted word, in characters. */
  const MaxWordLength: nat := 64

  /** One side of a submission: non-empty and at most 64 characters once
      trimmed. */
  predicate ValidSide(side: string) {
    0 < |Trim(side)| <= MaxWordLength
  }

  /** A submission is valid when it splits on `|` into exactly two sides,
      both sides are valid, and they differ ignoring case. */
  function Validate(input: string): (valid: bool)
    ensures valid ==> '|' in input && Count(input, '|') == 1
  {
    if '|' !in input then false
    else
      var parts := Split(input, '|');
      SplitCount(input, '|');
      |parts| == 2 &&
      ValidSide(parts[0]) && ValidSide(parts[1]) &&
      Lower(Trim(parts[0])) != Lower(Trim(parts[1]))
  }

  /** Validate restated on the position of the one bar, without `split`:
      an independent reference for the same decision. */
  lemma ValidateAtBar(input: string)
    ensures Validate(input) <==>
      Count(input, '|') == 1 &&
      var i := IndexOf(input, '|');
      ValidSide(input[..i]) && ValidSide(input[i + 1..]) &&
      Lower(Trim(input[..i])) != Lower(Trim(input[i + 1..]))
  {
    SplitCount(input, '|');
    if Count(input, '|') == 1 {
      SplitOne(input, '|');
    }
  }

  /** A normalised word: what a valid side becomes after trim and lower-case. */
  predicate IsWord(w: string) {
    0 < |w| <= MaxWordLength && IsTrimmed(w) && IsLower(w) && '|' !in w
  }

  /** A pair as ExtractWords produces it: two normalised, distinct words. */
  predicate WellFormed(p: WordPair) {
    IsWord(p.majorityWord) && IsWord(p.minorityWord) && p.majorityWord != p.minorityWord
  }

  /** Trimming and lower-casing a valid, bar-free side yields a word. */
  lemma NormalizeIsWord(side: string)
    requires ValidSide(side) && '|' !in side
    ensures IsWord(Lower(Trim(side)))
  {
    var t := Trim(side);
    LowerKeepsTrimmed(t);
    LowerIsLower(t);
    LowerKeepsAbsent(t, '|');
  }

  /** The pair of a valid submission: the left side is the majority word,
      the right side the minority word, both trimmed and lower-cased;
      None when the submission is not valid. */
  function ExtractWords(input: string): (r: Option<WordPair>)
    ensures r.Some? <==> Validate(input)
    ensures r.Some? ==> WellFormed(r.value)
  {
    if Validate(input) then
      var parts := Split(input, '|');
      NormalizeIsWord(parts[0]);
      NormalizeIsWord(parts[1]);
      Some(WordPair(Lower(Trim(parts[0])), Lower(Trim(parts[1]))))
    else None
  }

  /** The words of a valid submission are its two sides around the bar. */
  lemma ExtractWordsSides(input: string)
    requires Validate(input)
    ensures var i := IndexOf(input, '|');
      ExtractWords(input) == Some(WordPair(Lower(Trim(input[..i])), Lower(Trim(input[i + 1..]))))
  {
    SplitOne(input, '|');
  }

  /** How a pair is written back as a submission. */
  function Serialize(p: WordPair): string {
    p.majorityWord + " | " + p.minorityWord
  }

  /** A written-back pair splits into its padded words. */
  lemma SerializeSplit(p: WordPair)
    requires WellFormed(p)
    ensures Split(Serialize(p), '|') == [p.majorityWord + " ", " " + p.minorityWord]
  {
    var left, right := p.majorityWord + " ", " " + p.minorityWord;
    assert Serialize(p) == left + ['|'] + right;
    assert '|' !in left && '|' !in right;
    SplitAround(left, '|', right);
  }

  /** Writing a well-formed pair as "majority | minority" and parsing it
      again gives the same pair. */
  lemma RoundTrip(p: WordPair)
    requires WellFormed(p)
    ensures Validate(Serialize(p))
    ensures ExtractWords(Serialize(p)) == Some(p)
  {
    var s := Serialize(p);
    SerializeSplit(p);
    var parts := Split(s, '|');
    assert '|' in s by {
      assert s[|p.majorityWord| + 1] == '|';
    }
    TrimPaddedRight(p.majorityWord);
    TrimPaddedLeft(p.minorityWord);
    assert Trim(parts[0]) == p.majorityWord && Trim(parts[1]) == p.minorityWord;
    assert Lower(Trim(parts[0])) == p.majorityWord && Lower(Trim(parts[1])) == p.minorityWord;
    assert Validate(s);
  }

  /** ExtractWords is idempotent on its own output written back. */
  lemma ExtractIdempotent(input: string)
    requires ExtractWords(input).Some?
    ensures ExtractWords(Serialize(ExtractWords(input).value)) == ExtractWords(input)
  {
    RoundTrip(ExtractWords(input).value);
  }

  // ---------------------------------------------------------------- random pairs

  /** Part of speech a random pair is drawn from. */
  datatype SpeechPart = Noun | Adjective

  /** Adjective sub-categories, in declaration order. */
  const AdjectiveCategories: seq<string> :=
    ["appearance", "color", "condition", "personality", "quantity", "shapes",
     "size", "sounds", "taste", "time", "touch"]

  /** Noun sub-categories, in declaration order. */
  const NounCategories: seq<string> :=
    ["animals", "business", "education", "family", "food", "health", "media",
     "people", "place", "profession", "religion", "science", "sports",
     "technology", "thing", "time", "transportation"]

  function CategoriesOf(speech: SpeechPart): (cats: seq<string>)
    ensures |cats| > 0
    ensures forall i, j :: 0 <= i < j < |cats| ==> cats[i] != cats[j]
    ensures |cats| == if speech == Noun then 17 else 11
  {
    if speech == Noun then NounCategories else AdjectiveCategories
  }

  /** What a call to the word generator is restricted to. */
  datatype Constraint = AnyWord | InCategory(speech: SpeechPart, category: string)

  /** The category a random draw `d` selects from `categories`
      (`values().at(floor(random * count))`). */
  function PickCategory(categories: seq<string>, d: nat): (c: string)
    requires |categories| > 0
    ensures c in categories
  {
    categories[d % |categories|]
  }

  /** The category rejection loop: draw categories of `speech` until one
      whose generator can produce more than one word. `categoryDraw(k)` is
      the k-th random draw and `uniqueSlugs` the generator's count of
      distinct words; at most `fuel` draws are made. `categories` are the
      categories of `speech`. */
  method DrawCategory(speech: SpeechPart, categories: seq<string>, categoryDraw: nat -> nat,
                      uniqueSlugs: Constraint -> nat, n0: nat, fuel: nat)
    returns (category: Option<string>, n: nat)
    requires |categories| > 0
    ensures n0 <= n <= n0 + fuel
    ensures category.Some? ==> category.value in categories &&
                               uniqueSlugs(InCategory(speech, category.value)) != 1
    ensures category.None? ==>
              n == n0 + fuel &&
              forall k :: n0 <= k < n ==> uniqueSlugs(InCategory(speech, PickCategory(categories, categoryDraw(k)))) == 1
  {
    n := n0;
    while n < n0 + fuel
      invariant n0 <= n <= n0 + fuel
      invariant forall k :: n0 <= k < n ==>
        uniqueSlugs(InCategory(speech, PickCategory(categories, categoryDraw(k)))) == 1
    {
      var c := PickCategory(categories, categoryDraw(n));
      n := n + 1;
      if uniqueSlugs(InCategory(speech, c)) != 1 {
        return Some(c), n;
      }
    }
    category := None;
  }

  /** The word rejection loop: draw words under `from` until one differs
      from `first`. `slug(from, k)` is the generator's k-th word; at most
      `fuel` draws are made. */
  method DrawDifferent(first: string, from: Constraint, slug: (Constraint, nat) -> string,
                       n0: nat, fuel: nat)
    returns (second: Option<string>, n: nat)
    ensures n0 <= n <= n0 + fuel
    ensures second.Some? ==> second.value != first &&
                             exists k :: n0 <= k < n && second.value == slug(from, k)
    ensures second.None? ==> n == n0 + fuel && forall k :: n0 <= k < n ==> slug(from, k) == first
  {
    n := n0;
    while n < n0 + fuel
      invariant n0 <= n <= n0 + fuel
      invariant forall k :: n0 <= k < n ==> slug(from, k) == first
    {
      var w := slug(from, n);
      n := n + 1;
      if w != first {
        assert w == slug(from, n - 1);
        return Some(w), n;
      }
    }
    second := None;
  }

  /** The random sources one RandomWords call consumes: the coin choosing
      the part of speech, the k-th category draw, the generator's count of
      distinct words under a constraint, its k-th word under a constraint,
      and the most draws a rejection loop makes. */
  datatype Generator = Generator(nounCoin: bool, categoryDraw: nat -> nat,
                                 uniqueSlugs: Constraint -> nat,
                                 slug: (Constraint, nat) -> string, fuel: nat)

  /** What a generated pair satisfies, given the constraints its words
      were drawn under (`firstFrom`, `secondFrom`): the words differ and
      each is one the generator yields under its constraint. With
      `matchSpeechPart` both constraints are categories of the coin's part
      of speech that can produce more than one word, and with
      `matchCategory` as well they are one category; without
      `matchSpeechPart` both are unrestricted. */
  ghost predicate DrawnFrom(p: WordPair, matchSpeechPart: bool, matchCategory: bool, g: Generator,
                            firstFrom: Constraint, secondFrom: Constraint)
  {
    p.majorityWord != p.minorityWord &&
    (exists k :: p.majorityWord == g.slug(firstFrom, k)) &&
    (exists k :: p.minorityWord == g.slug(secondFrom, k)) &&
    if matchSpeechPart then
      firstFrom.InCategory? && secondFrom.InCategory? &&
      firstFrom.speech == secondFrom.speech == (if g.nounCoin then Noun else Adjective) &&
      firstFrom.category in CategoriesOf(firstFrom.speech) &&
      secondFrom.category in CategoriesOf(secondFrom.speech) &&
      g.uniqueSlugs(firstFrom) != 1 && g.uniqueSlugs(secondFrom) != 1 &&
      (matchCategory ==> firstFrom == secondFrom)
    else
      firstFrom == AnyWord && secondFrom == AnyWord
  }

  /** A pair RandomWords can return for these flags and this generator. */
  ghost predicate DrawnPair(p: WordPair, matchSpeechPart: bool, matchCategory: bool, g: Generator)
  {
    exists firstFrom, secondFrom :: DrawnFrom(p, matchSpeechPart, matchCategory, g, firstFrom, secondFrom)
  }

  /** A generator under which no rejection loop ever retries: every loop
      may draw at least once, every constraint yields more than one word,
      and two draws at different positions never give the same word. */
  ghost predicate NeverStalls(g: Generator)
  {
    g.fuel > 0 &&
    (forall c :: g.uniqueSlugs(c) != 1) &&
    (forall c, c', k, k' :: k != k' ==> g.slug(c, k) != g.slug(c', k'))
  }

  /** A constraint yielding a single word makes the category loop retry. */
  lemma OneWordStalls(g: Generator, c: Constraint)
    requires g.uniqueSlugs(c) == 1
    ensures !NeverStalls(g)
  {
  }

  /** Two draws giving the same word make the word loop retry. */
  lemma RepeatStalls(g: Generator, c: Constraint, k: nat, c': Constraint, k': nat)
    requires k != k' && g.slug(c, k) == g.slug(c', k')
    ensures !NeverStalls(g)
  {
  }

  /** A random pair of different words. With `matchSpeechPart` both words
      come from the same part of speech (chosen by the coin), each from a
      category able to produce two words; with `matchCategory` as well,
      from the same category; otherwise from the whole generator. None
      means a rejection loop ran out of draws without succeeding.
      `firstFrom`/`secondFrom` report where each word was drawn. */
  method RandomWords(matchSpeechPart: bool, matchCategory: bool, g: Generator)
    returns (r: Option<WordPair>, firstFrom: Constraint, secondFrom: Constraint)
    ensures r.Some? ==> r.value.majorityWord != r.value.minorityWord
    ensures r.Some? ==> (exists k :: r.value.majorityWord == g.slug(firstFrom, k)) &&
                        (exists k :: r.value.minorityWord == g.slug(secondFrom, k))
    ensures !matchSpeechPart ==> firstFrom == AnyWord && secondFrom == AnyWord
    ensures matchSpeechPart && r.Some? ==>
      firstFrom.InCategory? && secondFrom.InCategory? &&
      firstFrom.speech == secondFrom.speech == (if g.nounCoin then Noun else Adjective) &&
      firstFrom.category in CategoriesOf(firstFrom.speech) &&
      secondFrom.category in CategoriesOf(secondFrom.speech) &&
      g.uniqueSlugs(firstFrom) != 1 && g.uniqueSlugs(secondFrom) != 1
    ensures matchSpeechPart && matchCategory ==> firstFrom == secondFrom
    ensures NeverStalls(g) ==> r.Some?
  {
    var speech := if g.nounCoin then Noun else Adjective;
    var n := 0;
    firstFrom, secondFrom := AnyWord, AnyWord;
    if matchSpeechPart {
      var category;
      category, n := DrawCategory(speech, CategoriesOf(speech), g.categoryDraw, g.uniqueSlugs, n, g.fuel);
      if category.None? {
        if g.fuel > 0 {
          OneWordStalls(g, InCategory(speech, PickCategory(CategoriesOf(speech), g.categoryDraw(0))));
        }
        return None, firstFrom, secondFrom;
      }
      firstFrom := InCategory(speech, category.value);
      secondFrom := firstFrom;
      var firstAt := n;
      var first := g.slug(firstFrom, firstAt);
      n := n + 1;
      if !matchCategory {
        var n0 := n;
        category, n := DrawCategory(speech, CategoriesOf(speech), g.categoryDraw, g.uniqueSlugs, n, g.fuel);
        if category.None? {
          if g.fuel > 0 {
            OneWordStalls(g, InCategory(speech, PickCategory(CategoriesOf(speech), g.categoryDraw(n0))));
          }
          return None, firstFrom, secondFrom;
        }
        secondFrom := InCategory(speech, category.value);
      }
      var secondAt := n;
      var second;
      second, n := DrawDifferent(first, secondFrom, g.slug, n, g.fuel);
      if second.None? {
        if g.fuel > 0 {
          RepeatStalls(g, secondFrom, secondAt, firstFrom, firstAt);
        }
        return None, firstFrom, secondFrom;
      }
      r := Some(WordPair(first, second.value));
    } else {
      var first := g.slug(AnyWord, 0);
      n := 1;
      var second;
      second, n := DrawDifferent(first, AnyWord, g.slug, n, g.fuel);
      if second.None? {
        if g.fuel > 0 {
          RepeatStalls(g, AnyWord, 1, AnyWord, 0);
        }
        return None, firstFrom, secondFrom;
      }
      r := Some(WordPair(first, second.value));
    }
  }
}
