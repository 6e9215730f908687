/** Worked pages: what `process_page_data` and `find_sale_items` return on
    small inputs, the trailing-text and failure cases included. A page is
    written as "{{" followed by its template, whose lines are joined by "\n| ". */
module WikiDataExamples {
  import opened Wrappers
  import opened Strings
  import opened Seqs
  import opened WikiData
  import opened WikiDataProperties

  lemma CharNotInJoin(c: char, xs: seq<string>, sep: string)
    requires c !in sep && forall i :: 0 <= i < |xs| ==> c !in xs[i]
    ensures c !in Join(xs, sep)
    decreases |xs|
  {
    if |xs| > 1 {
      CharNotInJoin(c, xs[1..], sep);
    }
  }

  /** A page holding one template, `"{{" + piece`, is cut into an empty
      leading piece and `piece`. */
  lemma SinglePiecePage(piece: string)
    requires '{' !in piece
    ensures Split(BlockOpen + piece, BlockOpen) == ["", piece]
  {
    AppendedOccurs("", BlockOpen);
    FindIsLeftmost("" + BlockOpen, BlockOpen, 0, 0);
    MissingCharMeansAbsent(piece, BlockOpen, 0);
    SplitOfJoin(["", piece], BlockOpen);
    assert Join(["", piece], BlockOpen) == "" + BlockOpen + piece;
    assert "" + BlockOpen + piece == BlockOpen + piece;
  }

  /** A page "{{Gem store entry\n| l1\n| l2 ..." whose lines hold no '|' and
      no '{' has exactly one record, that of its lines read from the defaults. */
  lemma OneEntryPage(lines: seq<string>)
    requires forall i :: 0 <= i < |lines| ==> '|' !in lines[i] && '{' !in lines[i]
    ensures ProcessPageData(BlockOpen + Join([EntryTag] + lines, FieldSep)) ==
            match ParseFields(lines, DefaultEntry)
            case Failure(err) => Failure(err)
            case Success(e) => Success([e])
  {
    EntryPiece(lines);
    SingleEntryPage(Join([EntryTag] + lines, FieldSep));
  }

  /** The template built from `lines` is a gem store entry with those lines. */
  lemma EntryPiece(lines: seq<string>)
    requires forall i :: 0 <= i < |lines| ==> '|' !in lines[i] && '{' !in lines[i]
    ensures var piece := Join([EntryTag] + lines, FieldSep);
            '{' !in piece && IsEntryPiece(piece) && FieldLines(piece) == lines
  {
    EntryPieceHasNoBrace(lines);
    EntryTagStartsJoin(lines);
    EntryPieceLines(lines);
  }

  lemma EntryPieceHasNoBrace(lines: seq<string>)
    requires forall i :: 0 <= i < |lines| ==> '{' !in lines[i]
    ensures '{' !in Join([EntryTag] + lines, FieldSep)
  {
    var xs := [EntryTag] + lines;
    EntryTagFacts();
    forall i | 0 <= i < |xs|
      ensures '{' !in xs[i]
    {
      if i > 0 {
        assert xs[i] == lines[i - 1];
      }
    }
    CharNotInJoin('{', xs, FieldSep);
  }

  lemma EntryPieceLines(lines: seq<string>)
    requires forall i :: 0 <= i < |lines| ==> '|' !in lines[i]
    ensures FieldLines(Join([EntryTag] + lines, FieldSep)) == lines
  {
    EntryTagFacts();
    forall i | 0 <= i < |lines|
      ensures !Contains(lines[i], FieldSep)
    {
      MissingCharMeansAbsent(lines[i], FieldSep, 1);
    }
    FieldLinesOfJoin(EntryTag, lines);
  }

  lemma EntryTagFacts()
    ensures '{' !in EntryTag && !Contains(EntryTag, FieldSep)
  {
    assert EntryTag == "Gem " + "store " + "entry";
    assert '{' !in "Gem " && '{' !in "store " && '{' !in "entry";
    assert '\n' !in "Gem " && '\n' !in "store " && '\n' !in "entry";
    MissingCharMeansAbsent(EntryTag, FieldSep, 0);
  }

  /** A one-template page whose template is an entry: its records are that
      entry's record alone. */
  lemma SingleEntryPage(piece: string)
    requires '{' !in piece && IsEntryPiece(piece)
    ensures ProcessPageData(BlockOpen + piece) ==
            match ParseBlock(piece)
            case Failure(err) => Failure(err)
            case Success(e) => Success([e])
  {
    SinglePiecePage(piece);
    var pieces := ["", piece];
    assert !IsEntryPiece("");
    assert pieces[1..] == [piece];
    assert ParsePieces(pieces) == ParsePieces([piece]);
    assert [piece][1..] == [];
    assert ParsePieces([piece][1..]) == Success([]);
    match ParseBlock(piece)
    case Failure(err) =>
      assert ParsePieces([piece]) == Failure(err);
    case Success(e) =>
      assert [piece][0] == piece;
      assert ParsePieces([piece]) == Success([e] + []);
      assert [e] + [] == [e];
  }

  lemma EntryTagStartsJoin(lines: seq<string>)
    ensures IsEntryPiece(Join([EntryTag] + lines, FieldSep))
  {
    if |lines| == 0 {
      assert [EntryTag] + lines == [EntryTag];
    } else {
      JoinCons(EntryTag, lines, FieldSep);
      var s := Join([EntryTag] + lines, FieldSep);
      assert s == EntryTag + (FieldSep + Join(lines, FieldSep));
      assert s[..|EntryTag|] == EntryTag;
    }
  }

  lemma ThreeIsHeadAndTail(a: string, b: string, c: string)
    ensures [a, b, c] == [a] + [b, c] && [b, c] == [b] + [c]
  {
  }

  lemma PrependToThree(t: string, a: string, b: string, c: string)
    ensures [t] + [a, b, c] == [t, a, b, c]
  {
  }

  /** The parameter line "name = value". */
  function Line(name: string, value: string): string
  {
    name + KeySep + value
  }

  /** Text that can stand in a parameter line of a one-entry page. */
  predicate Plain(s: string)
  {
    '|' !in s && '{' !in s
  }

  lemma PlainLine(name: string, value: string)
    requires Plain(name) && Plain(value)
    ensures Plain(Line(name, value))
  {
  }

  lemma AssignItem(e: Entry, v: string)
    ensures Assign(e, "item", v) == e.(item := v)
  {
    assert ParseKey("item") == Some(Item);
  }

  lemma AssignCost(e: Entry, v: string)
    ensures Assign(e, "cost", v) == e.(cost := v)
  {
    assert ParseKey("cost") == Some(Cost);
  }

  lemma AssignDiscounted(e: Entry, v: string)
    ensures Assign(e, "discounted", v) == e.(discounted := v)
  {
    assert ParseKey("discounted") == Some(Discounted);
  }

  lemma ExampleNamesHaveNoSpace()
    ensures ' ' !in "item" && ' ' !in "cost" && ' ' !in "discounted"
  {
  }

  /** Reading a single line list: the parse ends with that line applied. */
  lemma LastLine(name: string, value: string, e: Entry)
    requires ' ' !in name
    ensures ParseFields([Line(name, value)], e) == Success(Assign(e, name, value))
  {
    SingletonIsConsEmpty(Line(name, value));
    ParseLine(name, value, [], e);
  }

  /** The sale items of a page with one record. */
  lemma SalesOfOne(data: string, e: Entry)
    requires ProcessPageData(data) == Success([e])
    ensures GetSales(data) == Success(if IsOnSale(e) then [e] else [])
  {
    FindSaleItemsKeepsOrder([], [], e);
  }

  lemma TrailingCloseLines(item: string, cost: string)
    ensures ParseFields([Line("item", item), Line("cost", cost), Line("discounted", "y\n}}")], DefaultEntry)
            == Success(DefaultEntry.(item := item, cost := cost, discounted := "y\n}}"))
  {
    var e0 := DefaultEntry;
    var e1 := e0.(item := item);
    var e2 := e1.(cost := cost);
    ThreeIsHeadAndTail(Line("item", item), Line("cost", cost), Line("discounted", "y\n}}"));
    ExampleNamesHaveNoSpace();
    ParseLine("item", item, [Line("cost", cost), Line("discounted", "y\n}}")], e0);
    AssignItem(e0, item);
    ParseLine("cost", cost, [Line("discounted", "y\n}}")], e1);
    AssignCost(e1, cost);
    LastLine("discounted", "y\n}}", e2);
    AssignDiscounted(e2, "y\n}}");
  }

  /** The page "{{Gem store entry\n| item = I\n| cost = C\n| discounted = y\n}}"
      yields one record whose `discounted` slot is "y\n}}": the closing "}}"
      stays on the last value, so the item is not reported as on sale. */
  lemma TrailingCloseStaysInValue(item: string, cost: string)
    requires Plain(item) && Plain(cost)
    ensures ProcessPageData(BlockOpen + Join([EntryTag, Line("item", item), Line("cost", cost), Line("discounted", "y\n}}")], FieldSep))
            == Success([DefaultEntry.(item := item, cost := cost, discounted := "y\n}}")])
    ensures GetSales(BlockOpen + Join([EntryTag, Line("item", item), Line("cost", cost), Line("discounted", "y\n}}")], FieldSep))
            == Success([])
  {
    var lines := [Line("item", item), Line("cost", cost), Line("discounted", "y\n}}")];
    PrependToThree(EntryTag, lines[0], lines[1], lines[2]);
    PlainLine("item", item);
    PlainLine("cost", cost);
    PlainLine("discounted", "y\n}}");
    OneEntryPage(lines);
    TrailingCloseLines(item, cost);
    SalesOfOne(BlockOpen + Join([EntryTag] + lines, FieldSep), DefaultEntry.(item := item, cost := cost, discounted := "y\n}}"));
  }

  // ---------------------------------------------------------------------------
  // The subsection cleanup on small values

  /** A wiki link closing the template, "[[name]]\n}}", is cleaned to `name`. */
  lemma SubsectionLinkIsUnwrapped(name: string)
    requires '[' !in name && ']' !in name && '\n' !in name && '}' !in name
    ensures CleanSubsection("[[" + name + "]]" + "\n" + "}}") == name
  {
    UnwrapOpen(name);
    UnwrapClose(name);
    StripMiddle(name, "\n", "}}");
    StripMiddle(name, "}}", "");
    AppendEmptyIsIdentity(name + "}}");
    AppendEmptyIsIdentity(name);
    CleanSubsectionStages("[[" + name + "]]" + "\n" + "}}", name + "]]" + "\n" + "}}",
                          name + "\n" + "}}", name + "}}", name);
  }

  lemma AppendEmptyIsIdentity(a: string)
    ensures a + "" == a
  {
  }

  lemma UnwrapOpen(name: string)
    requires '[' !in name
    ensures RemoveAll("[[" + name + "]]" + "\n" + "}}", "[[") == name + "]]" + "\n" + "}}"
  {
    CloseTailFacts();
    GroupLastThree("[[", name, "]]", "\n", "}}");
    StripLeading("[[", name, "]]" + "\n" + "}}");
    UngroupLastThree(name, "]]", "\n", "}}");
  }

  lemma UnwrapClose(name: string)
    requires ']' !in name
    ensures RemoveAll(name + "]]" + "\n" + "}}", "]]") == name + "\n" + "}}"
  {
    CloseTailFacts();
    GroupLastTwo(name, "]]", "\n", "}}");
    StripMiddle(name, "]]", "\n" + "}}");
    UngroupLastTwo(name, "\n", "}}");
  }

  lemma CloseTailFacts()
    ensures '[' !in "]]" + "\n" + "}}"
    ensures ']' !in "\n" + "}}"
  {
  }

  lemma GroupLastThree(a: string, b: string, c: string, d: string, e: string)
    ensures a + b + c + d + e == a + b + (c + d + e)
  {
  }

  lemma UngroupLastThree(a: string, b: string, c: string, d: string)
    ensures a + (b + c + d) == a + b + c + d
  {
  }

  lemma GroupLastTwo(a: string, b: string, c: string, d: string)
    ensures a + b + c + d == a + b + (c + d)
  {
  }

  lemma UngroupLastTwo(a: string, b: string, c: string)
    ensures a + (b + c) == a + b + c
  {
  }

  /** The cleanup, one removal at a time. */
  lemma CleanSubsectionStages(v: string, a: string, b: string, c: string, d: string)
    requires RemoveAll(v, "[[") == a && RemoveAll(a, "]]") == b
    requires RemoveAll(b, "\n") == c && RemoveAll(c, "}}") == d
    ensures CleanSubsection(v) == d
  {
  }

  /** Removing a leading `pat` from text in which `pat` cannot start anywhere else. */
  lemma StripLeading(pat: string, name: string, t: string)
    requires |pat| > 0 && pat[0] !in name && pat[0] !in t
    ensures RemoveAll(pat + name + t, pat) == name + t
  {
    assert pat + name + t == pat + (name + t);
    RemoveAllDropsLeading(pat, name + t);
    RemoveAllKeepsCleanPrefix(name, t, pat);
    RemoveAllKeepsCleanPrefix(t, [], pat);
    assert t + [] == t;
  }

  /** Removing one `pat` between two pieces in which `pat` cannot start. */
  lemma StripMiddle(name: string, pat: string, t: string)
    requires |pat| > 0 && pat[0] !in name && pat[0] !in t
    ensures RemoveAll(name + pat + t, pat) == name + t
  {
    assert name + pat + t == name + (pat + t);
    RemoveAllKeepsCleanPrefix(name, pat + t, pat);
    RemoveAllDropsLeading(pat, t);
    RemoveAllKeepsCleanPrefix(t, [], pat);
    assert t + [] == t;
  }

  /** "[[" is not guaranteed absent: in "[\n[" the brackets are split by a
      newline, which is removed only after "[[" has been looked for. */
  lemma BracketsCanReform()
    ensures CleanSubsection("[\n[") == "[["
  {
    assert "[\n["[..2][1] == '\n';
    RemoveAllKeepsHead("[\n[", "[[");
    assert "[\n["[1..] == "\n[";
    RemoveAllKeepsHead("\n[", "[[");
    assert "\n["[1..] == "[";
    assert RemoveAll("[", "[[") == "[";
    assert RemoveAll("[\n[", "[[") == "[\n[";
    RemoveAllKeepsCleanPrefix("[\n[", "", "]]");
    assert "[\n[" + "" == "[\n[";
    RemoveAllKeepsCleanPrefix("[", "\n[", "\n");
    RemoveAllDropsLeading("\n", "[");
    RemoveAllKeepsCleanPrefix("[", "", "\n");
    assert "[" + "" == "[";
    assert "[" + "[" == "[[";
    RemoveAllKeepsCleanPrefix("[[", "", "}}");
    assert "[[" + "" == "[[";
  }

  lemma SubsectionLine(name: string, e: Entry)
    requires '[' !in name && ']' !in name && '\n' !in name && '}' !in name
    ensures ParseFields([SubsectionLinkLine(name)], e)
            == Success(e.(subsection := name))
  {
    SubsectionLinkIsUnwrapped(name);
    GroupLastFive("subsection", KeySep, "[[", name, "]]", "\n", "}}");
    SubsectionValueLine("[[" + name + "]]" + "\n" + "}}", e);
  }

  lemma GroupLastFive(a: string, b: string, c: string, d: string, e: string, f: string, g: string)
    ensures a + b + c + d + e + f + g == a + b + (c + d + e + f + g)
  {
  }

  /** A lone subsection line stores its cleaned value. */
  lemma SubsectionValueLine(v: string, e: Entry)
    ensures ParseFields(["subsection" + KeySep + v], e) == Success(e.(subsection := CleanSubsection(v)))
  {
    SingletonIsConsEmpty("subsection" + KeySep + v);
    SubsectionNameHasNoSpace();
    ParseLine("subsection", v, [], e);
    AssignSubsection(e, v);
  }

  lemma SingletonIsConsEmpty(x: string)
    ensures [x] == [x] + []
  {
  }

  lemma SubsectionNameHasNoSpace()
    ensures ' ' !in "subsection"
  {
  }

  lemma AssignSubsection(e: Entry, v: string)
    ensures Assign(e, "subsection", v) == e.(subsection := CleanSubsection(v))
  {
    assert ParseKey("subsection") == Some(Subsection);
  }

  // ---------------------------------------------------------------------------
  // A discounted entry and a malformed one

  lemma SaleLines(item: string, sub: string)
    requires '[' !in sub && ']' !in sub && '\n' !in sub && '}' !in sub
    ensures ParseFields([Line("item", item), Line("discounted", SaleFlag), SubsectionLinkLine(sub)], DefaultEntry)
            == Success(DefaultEntry.(item := item, discounted := SaleFlag, subsection := sub))
  {
    var e0 := DefaultEntry;
    var e1 := e0.(item := item);
    var e2 := e1.(discounted := SaleFlag);
    ThreeIsHeadAndTail(Line("item", item), Line("discounted", SaleFlag), SubsectionLinkLine(sub));
    ExampleNamesHaveNoSpace();
    ParseLine("item", item, [Line("discounted", SaleFlag), SubsectionLinkLine(sub)], e0);
    AssignItem(e0, item);
    ParseLine("discounted", SaleFlag, [SubsectionLinkLine(sub)], e1);
    AssignDiscounted(e1, SaleFlag);
    SubsectionLine(sub, e2);
  }

  /** The subsection line "subsection = [[sub]]\n}}" that closes a template. */
  function SubsectionLinkLine(sub: string): string
  {
    "subsection" + KeySep + "[[" + sub + "]]" + "\n" + "}}"
  }

  lemma PlainLinkLine(sub: string)
    requires Plain(sub)
    ensures Plain(SubsectionLinkLine(sub))
  {
  }

  /** When `discounted = y` is followed by another line its value is exactly
      "y" and the item is on sale; the closing "[[sub]]\n}}" of the last
      line is cleaned to `sub`. */
  lemma SaleFlagBeforeSubsection(item: string, sub: string)
    requires Plain(item) && Plain(sub)
    requires '[' !in sub && ']' !in sub && '\n' !in sub && '}' !in sub
    ensures ProcessPageData(BlockOpen + Join([EntryTag, Line("item", item), Line("discounted", SaleFlag), SubsectionLinkLine(sub)], FieldSep))
            == Success([DefaultEntry.(item := item, discounted := SaleFlag, subsection := sub)])
    ensures GetSales(BlockOpen + Join([EntryTag, Line("item", item), Line("discounted", SaleFlag), SubsectionLinkLine(sub)], FieldSep))
            == Success([DefaultEntry.(item := item, discounted := SaleFlag, subsection := sub)])
  {
    var lines := [Line("item", item), Line("discounted", SaleFlag), SubsectionLinkLine(sub)];
    PrependToThree(EntryTag, lines[0], lines[1], lines[2]);
    PlainLine("item", item);
    PlainLine("discounted", SaleFlag);
    PlainLinkLine(sub);
    OneEntryPage(lines);
    SaleLines(item, sub);
    SalesOfOne(BlockOpen + Join([EntryTag] + lines, FieldSep), DefaultEntry.(item := item, discounted := SaleFlag, subsection := sub));
  }

  /** A parameter line without " = " makes the whole page fail. */
  lemma MissingSeparatorFailsThePage(line: string)
    requires Plain(line) && !Contains(line, KeySep)
    ensures ProcessPageData(BlockOpen + Join([EntryTag, line], FieldSep))
            == Failure(MissingKeySeparator(line))
    ensures GetSales(BlockOpen + Join([EntryTag, line], FieldSep)) == Failure(MissingKeySeparator(line))
  {
    assert [EntryTag] + [line] == [EntryTag, line];
    OneEntryPage([line]);
    assert [line][0] == line;
  }
}
