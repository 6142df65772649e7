/**
 * Cards of the game (`ClCard`): three variants that share an id and a map of
 * display names. `ClCard` declares an `equals` that compares the variant and
 * the id only; every set and map of cards in the model is keyed by `Card`,
 * the pair of the two, so it follows that declared equality. The variants are
 * `data class`es, whose generated `equals` also compares the display names
 * (`DataClassEquals`); the two agree whenever a card's identity determines
 * its display names (`EqualitiesAgree`).
 */
module Cards {

  datatype CardType = Room | Subject | Tool

  /** The identity of a card: what the declared `ClCard.equals` and `hashCode` look at. */
  datatype Card = Card(kind: CardType, id: string)

  datatype ClCard =
    | RoomCard(id: string, displayNames: map<string, string>)
    | SubjectCard(id: string, displayNames: map<string, string>)
    | ToolCard(id: string, displayNames: map<string, string>)
  {
    /** The category of the variant, by an exhaustive match. */
    function CardType(): (t: CardType)
      ensures t == Room <==> this.RoomCard?
      ensures t == Subject <==> this.SubjectCard?
      ensures t == Tool <==> this.ToolCard?
    {
      match this
      case RoomCard(_, _) => Room
      case SubjectCard(_, _) => Subject
      case ToolCard(_, _) => Tool
    }

    function Identity(): Card {
      Card(CardType(), id)
    }

    /**
     * The display name for a language code: the entry for that language,
     * else the English entry, else the id.
     */
    function DisplayName(language: string): (name: string)
      ensures language in displayNames ==> name == displayNames[language]
      ensures language !in displayNames && "en" in displayNames ==> name == displayNames["en"]
      ensures language !in displayNames && "en" !in displayNames ==> name == id
    {
      if language in displayNames then displayNames[language]
      else if "en" in displayNames then displayNames["en"]
      else id
    }
  }

  /** The declared `ClCard.equals`: same variant and same id; the display names do not matter. */
  predicate Equals(a: ClCard, b: ClCard)
  {
    a.Identity() == b.Identity()
  }

  lemma EqualsIsVariantAndId(a: ClCard, b: ClCard)
    ensures Equals(a, b) <==>
      ((a.RoomCard? && b.RoomCard?) || (a.SubjectCard? && b.SubjectCard?) || (a.ToolCard? && b.ToolCard?))
      && a.id == b.id
  {
  }

  /**
   * The `equals` Kotlin generates for a `data class` variant: the same
   * variant, the same id and the same display names. The declared `equals`
   * is not `final`, so every variant gets this one instead.
   */
  predicate DataClassEquals(a: ClCard, b: ClCard)
  {
    && ((a.RoomCard? && b.RoomCard?) || (a.SubjectCard? && b.SubjectCard?) || (a.ToolCard? && b.ToolCard?))
    && a.id == b.id
    && a.displayNames == b.displayNames
  }

  /** The generated equality is structural equality of the record. */
  lemma DataClassEqualsIsStructural(a: ClCard, b: ClCard)
    ensures DataClassEquals(a, b) <==> a == b
  {
  }

  /** Two tool cards with one id but different display names: equal as declared, unequal as generated. */
  lemma DisplayNamesSplitCards()
    ensures var a := ToolCard("rope", map["en" := "Rope"]);
      var b := ToolCard("rope", map[]);
      Equals(a, b) && !DataClassEquals(a, b)
  {
    var a := ToolCard("rope", map["en" := "Rope"]);
    var b := ToolCard("rope", map[]);
    assert "en" in a.displayNames && "en" !in b.displayNames;
  }

  /** In a collection of cards, each identity belongs to one record only. */
  predicate IdentityDetermines(cards: set<ClCard>)
  {
    forall a, b :: a in cards && b in cards && a.Identity() == b.Identity() ==> a == b
  }

  /** Where identity determines the record, the declared and the generated equality agree. */
  lemma EqualitiesAgree(cards: set<ClCard>, a: ClCard, b: ClCard)
    requires IdentityDetermines(cards) && a in cards && b in cards
    ensures DataClassEquals(a, b) <==> Equals(a, b)
  {
  }

  const TwoTo32: int := 0x1_0000_0000

  /**
   * `String.hashCode` before the final signed reinterpretation:
   * h = 31 * h + c, modulo 2^32, over the string's characters (which are
   * Java's UTF-16 units inside the Basic Multilingual Plane).
   */
  function StringHashBits(s: string): (h: int)
    ensures 0 <= h < TwoTo32
  {
    if s == [] then 0
    else (31 * StringHashBits(s[..|s| - 1]) + s[|s| - 1] as int) % TwoTo32
  }

  /** Java's `String.hashCode`, as a signed 32-bit value. */
  function StringHash(s: string): (h: int)
    ensures -0x8000_0000 <= h < 0x8000_0000
  {
    var bits := StringHashBits(s);
    if bits < 0x8000_0000 then bits else bits - TwoTo32
  }

  /** The declared `ClCard.hashCode`: the hash of the id alone. */
  function HashCode(c: ClCard): int
  {
    StringHash(c.id)
  }

  /** Equal cards have equal hash codes, as the `equals`/`hashCode` contract asks. */
  lemma EqualCardsHashEqually(a: ClCard, b: ClCard)
    requires Equals(a, b)
    ensures HashCode(a) == HashCode(b)
  {
  }
}
