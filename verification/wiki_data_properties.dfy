/** What `process_page_data` and `find_sale_items` promise, proved of the model. */
module WikiDataProperties {
  import opened Wrappers
  import opened Strings
  import opened Seqs
  import opened WikiData

  // ---------------------------------------------------------------------------
  // Record shape

  /** The seven keys occupy seven different slots of the list layout. */
  lemma SlotsAreDistinct(k: Key, k': Key)
    ensures Slot(k) == Slot(k') <==> k == k'
  {
  }

  /** A fresh record is ["UNKNOWN", "UNKNOWN", "0", "1", "n", "UNKNOWN", "UNKNOWN"]. */
  lemma DefaultSlots()
    ensures Slots(DefaultEntry) == ["UNKNOWN", "UNKNOWN", "0", "1", "n", "UNKNOWN", "UNKNOWN"]
  {
  }

  // ---------------------------------------------------------------------------
  // Last write wins

  /** Index of the last line whose parameter name is `name`. */
  function LastIndexOf(lines: seq<string>, name: string): (r: Option<nat>)
    ensures r.Some? ==> r.value < |lines| && KeyOf(lines[r.value]) == name
    ensures r.Some? ==> forall j :: r.value < j < |lines| ==> KeyOf(lines[j]) != name
    ensures r.None? ==> forall j :: 0 <= j < |lines| ==> KeyOf(lines[j]) != name
    decreases |lines|
  {
    if |lines| == 0 then None
    else
      match LastIndexOf(lines[1..], name)
      case Some(i) => Some(i + 1)
      case None => if KeyOf(lines[0]) == name then Some(0) else None
  }

  /** What slot `k` holds after reading `lines` into a record whose slot held
      `prior`: the stored value of the last line naming `k`, or `prior` if none does. */
  function Latest(lines: seq<string>, k: Key, prior: string): string
    requires AllHaveKeySep(lines)
  {
    match LastIndexOf(lines, KeyName(k))
    case Some(i) => Stored(k, ValueOf(lines[i]))
    case None => prior
  }

  /** Reading well-formed lines succeeds, and each slot ends up holding the
      value of the last line naming it; a slot no line names keeps its value. */
  lemma {:induction false} ParseFieldsLastWriteWins(lines: seq<string>, e: Entry)
    requires AllHaveKeySep(lines)
    ensures ParseFields(lines, e).Success?
    ensures forall k :: Get(ParseFields(lines, e).value, k) == Latest(lines, k, Get(e, k))
    decreases |lines|
  {
    if |lines| > 0 {
      var e' := Assign(e, KeyOf(lines[0]), ValueOf(lines[0]));
      assert AllHaveKeySep(lines[1..]) by {
        forall i | 0 <= i < |lines[1..]| ensures Contains(lines[1..][i], KeySep) {
          assert lines[1..][i] == lines[i + 1];
        }
      }
      ParseFieldsLastWriteWins(lines[1..], e');
      assert ParseFields(lines, e) == ParseFields(lines[1..], e');
      forall k
        ensures Get(ParseFields(lines, e).value, k) == Latest(lines, k, Get(e, k))
      {
        match LastIndexOf(lines[1..], KeyName(k))
        case Some(i) =>
          assert lines[1..][i] == lines[i + 1];
        case None =>
      }
    }
  }

  /** A block with well-formed parameter lines yields a record whose every
      slot holds its last value, or the default when no line names it. */
  lemma ParseBlockLastWriteWins(block: string)
    requires AllHaveKeySep(FieldLines(block))
    ensures ParseBlock(block).Success?
    ensures forall k :: Get(ParseBlock(block).value, k) == Latest(FieldLines(block), k, Get(DefaultEntry, k))
  {
    ParseFieldsLastWriteWins(FieldLines(block), DefaultEntry);
  }

  /** A slot whose parameter never appears in the block keeps its default. */
  lemma UnnamedSlotKeepsDefault(block: string, k: Key)
    requires AllHaveKeySep(FieldLines(block))
    requires forall j :: 0 <= j < |FieldLines(block)| ==> KeyOf(FieldLines(block)[j]) != KeyName(k)
    ensures ParseBlock(block).Success?
    ensures Slots(ParseBlock(block).value)[Slot(k)] == Slots(DefaultEntry)[Slot(k)]
  {
    ParseBlockLastWriteWins(block);
    assert LastIndexOf(FieldLines(block), KeyName(k)).None?;
  }

  // ---------------------------------------------------------------------------
  // Lines are applied one after another

  /** Reading `xs + ys` reads `xs`, then `ys` from where `xs` left the record. */
  lemma {:induction false} ParseFieldsConcat(xs: seq<string>, ys: seq<string>, e: Entry)
    ensures ParseFields(xs + ys, e) ==
            match ParseFields(xs, e)
            case Failure(err) => Failure(err)
            case Success(e1) => ParseFields(ys, e1)
    decreases |xs|
  {
    if |xs| == 0 {
      assert xs + ys == ys;
    } else {
      assert (xs + ys)[0] == xs[0];
      assert (xs + ys)[1..] == xs[1..] + ys;
      var parts := SplitOnce(xs[0], KeySep);
      if |parts| == 2 {
        ParseFieldsConcat(xs[1..], ys, Assign(e, parts[0], parts[1]));
      }
    }
  }

  /** A well-formed line whose parameter name is not recognised can be
      inserted anywhere without changing the outcome. */
  lemma UnrecognisedLineIsIgnored(xs: seq<string>, line: string, ys: seq<string>, e: Entry)
    requires Contains(line, KeySep) && ParseKey(KeyOf(line)).None?
    ensures ParseFields(xs + [line] + ys, e) == ParseFields(xs + ys, e)
  {
    assert xs + [line] + ys == xs + ([line] + ys);
    ParseFieldsConcat(xs, [line] + ys, e);
    ParseFieldsConcat(xs, ys, e);
    match ParseFields(xs, e)
    case Failure(_) =>
    case Success(e1) =>
      assert ([line] + ys)[0] == line;
      assert ([line] + ys)[1..] == ys;
      assert Assign(e1, KeyOf(line), ValueOf(line)) == e1;
  }

  // ---------------------------------------------------------------------------
  // Inside a block: the header line and the first " = "

  /** "\n| " cannot straddle the end of a text that does not contain it: its
      leftmost occurrence in `h + "\n| "` is the appended one. */
  lemma FieldSepStartsAfterHeader(h: string)
    requires !Contains(h, FieldSep)
    ensures Find(h + FieldSep, FieldSep, 0) == Some(|h|)
  {
    var s := h + FieldSep;
    forall j | 0 <= j < |h|
      ensures !OccursAt(s, FieldSep, j)
    {
      if j + 3 <= |h| {
        assert !OccursAt(h, FieldSep, j);
        OccursAtAppend(h, FieldSep, FieldSep, j);
      } else {
        FieldSepDoesNotStraddle(h, j);
      }
    }
    AppendedOccurs(h, FieldSep);
    FindIsLeftmost(s, FieldSep, 0, |h|);
  }

  /** An occurrence starting in the last two characters of `h` would need
      '\n' to equal '|' or ' '. */
  lemma FieldSepDoesNotStraddle(h: string, j: int)
    requires 0 <= j < |h| < j + |FieldSep|
    ensures !OccursAt(h + FieldSep, FieldSep, j)
  {
    var s := h + FieldSep;
    assert s[|h|] == '\n';
    if OccursAt(s, FieldSep, j) {
      assert false;
    }
  }

  /** The text before the first "\n| " of a block never affects its record. */
  lemma HeaderIsIgnored(h: string, rest: string)
    requires !Contains(h, FieldSep)
    ensures FieldLines(h + FieldSep + rest) == Split(rest, FieldSep)
    ensures ParseBlock(h + FieldSep + rest) == ParseFields(Split(rest, FieldSep), DefaultEntry)
  {
    FieldSepStartsAfterHeader(h);
    SplitAfterHead(h, FieldSep, rest);
  }

  /** A block with no parameter line at all still yields a record: the defaults. */
  lemma HeaderOnlyBlockIsDefault(h: string)
    requires !Contains(h, FieldSep)
    ensures ParseBlock(h) == Success(DefaultEntry)
  {
    SplitAbsent(h, FieldSep);
  }

  /** A block written as a header and parameter lines joined by "\n| ", none
      of them containing "\n| ", has exactly those parameter lines. */
  lemma FieldLinesOfJoin(h: string, lines: seq<string>)
    requires !Contains(h, FieldSep)
    requires forall i :: 0 <= i < |lines| ==> !Contains(lines[i], FieldSep)
    ensures FieldLines(Join([h] + lines, FieldSep)) == lines
  {
    var xs := [h] + lines;
    forall i | 0 <= i < |xs| - 1
      ensures Find(xs[i] + FieldSep, FieldSep, 0) == Some(|xs[i]|)
    {
      if i > 0 {
        assert xs[i] == lines[i - 1];
      }
      FieldSepStartsAfterHeader(xs[i]);
    }
    if |lines| > 0 {
      assert xs[|xs| - 1] == lines[|lines| - 1];
    }
    SplitOfJoin(xs, FieldSep);
    assert xs[1..] == lines;
  }

  /** " = " can only start at a space, so a name without spaces is cut off at
      the " = " that follows it. */
  lemma KeySepStartsAfterName(name: string)
    requires ' ' !in name
    ensures Find(name + KeySep, KeySep, 0) == Some(|name|)
  {
    var s := name + KeySep;
    NoKeySepInsideName(name);
    assert s[|name|..|name| + |KeySep|] == KeySep;
    FindIsLeftmost(s, KeySep, 0, |name|);
  }

  lemma NoKeySepInsideName(name: string)
    requires ' ' !in name
    ensures forall j :: 0 <= j < |name| ==> !OccursAt(name + KeySep, KeySep, j)
  {
    var s := name + KeySep;
    forall j | 0 <= j < |name|
      ensures !OccursAt(s, KeySep, j)
    {
      assert s[j] == name[j];
      CharBlocksOccurrence(s, KeySep, j);
    }
  }

  /** Only the first " = " separates name from value: the value is everything
      after it, further " = " included. */
  lemma ValueKeepsLaterSeparators(name: string, value: string)
    requires ' ' !in name
    ensures Contains(name + KeySep + value, KeySep)
    ensures KeyOf(name + KeySep + value) == name
    ensures ValueOf(name + KeySep + value) == value
  {
    KeySepStartsAfterName(name);
    SplitOnceOfJoin(name, KeySep, value);
  }

  /** Reading a line `name = value` whose name has no space applies `value`
      to the slot `name` selects and goes on with the next line. */
  lemma ParseLine(name: string, value: string, rest: seq<string>, e: Entry)
    requires ' ' !in name
    ensures ParseFields([name + KeySep + value] + rest, e) == ParseFields(rest, Assign(e, name, value))
  {
    var lines := [name + KeySep + value] + rest;
    KeySepStartsAfterName(name);
    SplitOnceOfJoin(name, KeySep, value);
    assert lines[0] == name + KeySep + value;
    assert lines[1..] == rest;
  }

  // ---------------------------------------------------------------------------
  // The page: one record per entry piece, in order

  /** The pieces that become records are exactly the "{{"-pieces starting
      with "Gem store entry", each as often as it occurs. */
  lemma EntryBlocksAreTheEntryPieces(data: string)
    ensures forall i :: 0 <= i < |EntryBlocks(data)| ==> StartsWith(EntryBlocks(data)[i], EntryTag)
    ensures forall p :: multiset(EntryBlocks(data))[p] ==
              if StartsWith(p, EntryTag) then multiset(Split(data, BlockOpen))[p] else 0
  {
    FilterCounts(Split(data, BlockOpen), IsEntryPiece);
  }

  /** A piece that is not a gem store entry contributes nothing, wherever it is. */
  lemma OtherPieceContributesNothing(xs: seq<string>, piece: string, ys: seq<string>)
    requires !IsEntryPiece(piece)
    ensures ParsePieces(xs + [piece] + ys) == ParsePieces(xs + ys)
  {
    ParsePiecesIsParseEachOfEntries(xs + [piece] + ys);
    ParsePiecesIsParseEachOfEntries(xs + ys);
    FilterConcat(xs + [piece], ys, IsEntryPiece);
    FilterConcat(xs, [piece], IsEntryPiece);
    FilterSingleton(piece, IsEntryPiece);
    FilterConcat(xs, ys, IsEntryPiece);
    assert Filter(xs, IsEntryPiece) + [] == Filter(xs, IsEntryPiece);
  }

  // ---------------------------------------------------------------------------
  // The subsection cleanup

  /** A value holding none of the four removed tokens is stored unchanged. */
  lemma CleanSubsectionKeepsPlainText(v: string)
    requires !Contains(v, "[[") && !Contains(v, "]]") && !Contains(v, "\n") && !Contains(v, "}}")
    ensures CleanSubsection(v) == v
  {
    RemoveAllAbsent(v, "[[");
    RemoveAllAbsent(v, "]]");
    RemoveAllAbsent(v, "\n");
    RemoveAllAbsent(v, "}}");
  }

  // ---------------------------------------------------------------------------
  // The sale filter

  /** `find_sale_items` keeps the original order: it distributes over
      concatenation and keeps a single record exactly when it is on sale. */
  lemma FindSaleItemsKeepsOrder(xs: seq<Entry>, ys: seq<Entry>, e: Entry)
    ensures FindSaleItems(xs + ys) == FindSaleItems(xs) + FindSaleItems(ys)
    ensures FindSaleItems([e]) == if e.discounted == SaleFlag then [e] else []
  {
    FilterConcat(xs, ys, IsOnSale);
    FilterSingleton(e, IsOnSale);
  }

  /** The sales of a page keep page order: the sales from the records of an
      earlier part of the page come before those of a later part. */
  lemma GetSalesKeepsPageOrder(data: string, xs: seq<Entry>, ys: seq<Entry>)
    requires ProcessPageData(data) == Success(xs + ys)
    ensures GetSales(data) == Success(FindSaleItems(xs) + FindSaleItems(ys))
  {
    FindSaleItemsKeepsOrder(xs, ys, DefaultEntry);
  }

  /** Filtering the sale items again changes nothing. */
  lemma FindSaleItemsIdempotent(items: seq<Entry>)
    ensures FindSaleItems(FindSaleItems(items)) == FindSaleItems(items)
  {
    FilterIdempotent(items, IsOnSale);
  }
}
