/**
 The gem store data page parser of get_wiki_data.py: `process_page_data`
 turns the wiki markup of the "Gem_Store/data" page into one seven-slot
 record per "Gem store entry" template, and `find_sale_items` keeps the
 records flagged as discounted. Every field is kept as the raw text the
 page holds; nothing is converted to a number or a boolean.
 */
module WikiData {
  import opened Wrappers
  import opened Strings
  import opened Seqs

  /** The page is cut into pieces at every template opener. */
  const BlockOpen: string := "{{"
  /** Only pieces starting with this template name become records. */
  const EntryTag: string := "Gem store entry"
  /** Separator between the parameter lines of a template. */
  const FieldSep: string := "\n| "
  /** Separator between a parameter's name and its value. */
  const KeySep: string := " = "
  /** The exact `discounted` value that marks an item as on sale. */
  const SaleFlag: string := "y"

  /** One gem store record; the source keeps it as the list
      [Item, Availability, Cost, Qty, Discounted, Section, Subsection]. */
  datatype Entry = Entry(
    item: string,
    availability: string,
    cost: string,
    qty: string,
    discounted: string,
    section: string,
    subsection: string)

  /** The template parameters the parser recognises, one per record slot. */
  datatype Key = Item | Availability | Cost | Qty | Discounted | Section | Subsection

  /** The record a block starts from before any of its lines is read. */
  const DefaultEntry: Entry := Entry("UNKNOWN", "UNKNOWN", "0", "1", "n", "UNKNOWN", "UNKNOWN")

  /** Parameter name of each key as written in the wiki markup. */
  function KeyName(k: Key): string
  {
    match k
    case Item => "item"
    case Availability => "availability"
    case Cost => "cost"
    case Qty => "qty"
    case Discounted => "discounted"
    case Section => "section"
    case Subsection => "subsection"
  }

  /** Position of each key's slot in the source's seven-element list. */
  function Slot(k: Key): (i: nat)
    ensures i < 7
  {
    match k
    case Item => 0
    case Availability => 1
    case Cost => 2
    case Qty => 3
    case Discounted => 4
    case Section => 5
    case Subsection => 6
  }

  function Get(e: Entry, k: Key): string
  {
    match k
    case Item => e.item
    case Availability => e.availability
    case Cost => e.cost
    case Qty => e.qty
    case Discounted => e.discounted
    case Section => e.section
    case Subsection => e.subsection
  }

  /** Overwrite one slot of a record. */
  function Set(e: Entry, k: Key, v: string): (r: Entry)
    ensures Get(r, k) == v
    ensures forall k' :: k' != k ==> Get(r, k') == Get(e, k')
  {
    match k
    case Item => e.(item := v)
    case Availability => e.(availability := v)
    case Cost => e.(cost := v)
    case Qty => e.(qty := v)
    case Discounted => e.(discounted := v)
    case Section => e.(section := v)
    case Subsection => e.(subsection := v)
  }

  /** The record in the source's list layout: seven strings, slot `Slot(k)` holding key `k`. */
  function Slots(e: Entry): (r: seq<string>)
    ensures |r| == 7
    ensures forall k :: r[Slot(k)] == Get(e, k)
  {
    [e.item, e.availability, e.cost, e.qty, e.discounted, e.section, e.subsection]
  }

  /** The if/elif chain on the parameter name: which slot, if any, a name selects. */
  function ParseKey(name: string): (r: Option<Key>)
    ensures r.Some? ==> KeyName(r.value) == name
    ensures r.None? ==> forall k :: KeyName(k) != name
  {
    if name == "item" then Some(Item)
    else if name == "availability" then Some(Availability)
    else if name == "cost" then Some(Cost)
    else if name == "qty" then Some(Qty)
    else if name == "discounted" then Some(Discounted)
    else if name == "section" then Some(Section)
    else if name == "subsection" then Some(Subsection)
    else None
  }

  /** The `subsection` cleanup: remove "[[", then "]]", then newlines, then "}}".
      No newline and no "}}" survive; "[[" and "]]" can re-form once the
      characters between their halves are removed, so nothing is promised of them. */
  function CleanSubsection(v: string): (r: string)
    ensures '\n' !in r
    ensures !Contains(r, "}}")
  {
    var noOpen := RemoveAll(v, "[[");
    var noClose := RemoveAll(noOpen, "]]");
    var noNewline := RemoveAll(noClose, "\n");
    var r := RemoveAll(noNewline, "}}");
    RemoveAllCharIsGone(noClose, '\n');
    RemoveAllKeepsAbsent(noNewline, "}}", '\n');
    RemoveAllPairIsGone(noNewline, '}');
    NoPairIsNotContains(r, '}');
    r
  }

  /** The text a line's value leaves in the slot of key `k`. */
  function Stored(k: Key, raw: string): string
  {
    if k == Subsection then CleanSubsection(raw) else raw
  }

  /** Apply one `name = value` line to a record: the slot the name selects
      receives the (cleaned) value; an unrecognised name changes nothing. */
  function Assign(e: Entry, name: string, value: string): (r: Entry)
    ensures forall k :: Get(r, k) == if KeyName(k) == name then Stored(k, value) else Get(e, k)
  {
    match ParseKey(name)
    case None => e
    case Some(k) => Set(e, k, Stored(k, value))
  }

  /** Why a page could not be parsed: a parameter line without " = ", on
      which the source's `split_item[1]` raises IndexError. */
  datatype ParseError = MissingKeySeparator(line: string)

  /** The parameter name of a line: the text before its first " = ". */
  function KeyOf(line: string): (r: string)
    ensures !Contains(r, KeySep)
    ensures !Contains(line, KeySep) ==> r == line
  {
    SplitOnce(line, KeySep)[0]
  }

  /** The value of a line: everything after its first " = ". */
  function ValueOf(line: string): (r: string)
    requires Contains(line, KeySep)
    ensures line == KeyOf(line) + KeySep + r
  {
    SplitOnce(line, KeySep)[1]
  }

  /** Every line of `lines` holds a " = ". */
  predicate AllHaveKeySep(lines: seq<string>)
  {
    forall i :: 0 <= i < |lines| ==> Contains(lines[i], KeySep)
  }

  /** The inner loop: apply the parameter lines in order to `e`; the first
      line without " = " aborts the whole parse. */
  function ParseFields(lines: seq<string>, e: Entry): (r: Result<Entry, ParseError>)
    ensures r.Success? <==> AllHaveKeySep(lines)
    ensures r.Failure? ==> exists i :: 0 <= i < |lines| && FirstWithoutKeySep(lines, i) && r.error.line == lines[i]
    decreases |lines|
  {
    if |lines| == 0 then Success(e)
    else
      var parts := SplitOnce(lines[0], KeySep);
      if |parts| < 2 then
        assert FirstWithoutKeySep(lines, 0);
        Failure(MissingKeySeparator(lines[0]))
      else
        var r := ParseFields(lines[1..], Assign(e, parts[0], parts[1]));
        assert r.Failure? ==> exists i :: 0 <= i < |lines| && FirstWithoutKeySep(lines, i) && r.error.line == lines[i] by {
          if r.Failure? {
            var j :| 0 <= j < |lines[1..]| && FirstWithoutKeySep(lines[1..], j) && r.error.line == lines[1..][j];
            FirstWithoutKeySepShifts(lines, j);
          }
        }
        r
  }

  /** Line `i` is the first line of `lines` without a " = ". */
  predicate FirstWithoutKeySep(lines: seq<string>, i: nat)
    requires i < |lines|
  {
    !Contains(lines[i], KeySep) && AllHaveKeySep(lines[..i])
  }

  lemma FirstWithoutKeySepShifts(lines: seq<string>, j: nat)
    requires j + 1 < |lines| && Contains(lines[0], KeySep) && FirstWithoutKeySep(lines[1..], j)
    ensures FirstWithoutKeySep(lines, j + 1)
  {
    assert lines[..j + 1] == [lines[0]] + lines[1..][..j];
  }

  /** The parameter lines of a block: its pieces split on "\n| ", without the
      first one (the template name line). */
  function FieldLines(block: string): (r: seq<string>)
    ensures forall i :: 0 <= i < |r| ==> !Contains(r[i], FieldSep)
    ensures !Contains(block, FieldSep) ==> r == []
  {
    Split(block, FieldSep)[1..]
  }

  /** One block's record, built from the defaults: it fails exactly when a
      parameter line lacks " = ", and then names such a line. */
  function ParseBlock(block: string): (r: Result<Entry, ParseError>)
    ensures r.Success? <==> AllHaveKeySep(FieldLines(block))
    ensures r.Failure? ==> r.error.line in FieldLines(block) && !Contains(r.error.line, KeySep)
  {
    ParseFields(FieldLines(block), DefaultEntry)
  }

  predicate IsEntryPiece(piece: string)
  {
    StartsWith(piece, EntryTag)
  }

  /** The outer loop of `process_page_data`: skip the pieces that are not
      gem store entries, turn each other one into a record. */
  function ParsePieces(pieces: seq<string>): (r: Result<seq<Entry>, ParseError>)
    ensures r.Success? ==> |r.value| <= |pieces|
    decreases |pieces|
  {
    if |pieces| == 0 then Success([])
    else if !IsEntryPiece(pieces[0]) then ParsePieces(pieces[1..])
    else
      match ParseBlock(pieces[0])
      case Failure(err) => Failure(err)
      case Success(e) =>
        match ParsePieces(pieces[1..])
        case Failure(err) => Failure(err)
        case Success(es) => Success([e] + es)
  }

  /** `process_page_data`: the page is split on "{{" and its entry pieces
      parsed. It succeeds exactly when every parameter line of every entry
      piece holds a " = ", and then returns one record per entry piece, in
      page order, each the record of its own piece. */
  function ProcessPageData(data: string): (r: Result<seq<Entry>, ParseError>)
    ensures var blocks := EntryBlocks(data);
            r.Success? <==> forall i :: 0 <= i < |blocks| ==> AllHaveKeySep(FieldLines(blocks[i]))
    ensures var blocks := EntryBlocks(data);
            r.Success? ==>
              |r.value| == |blocks| &&
              forall i :: 0 <= i < |blocks| ==> ParseBlock(blocks[i]) == Success(r.value[i])
  {
    ParsePiecesIsParseEachOfEntries(Split(data, BlockOpen));
    ParseEachRecords(EntryBlocks(data));
    ParsePieces(Split(data, BlockOpen))
  }

  /** The outer loop is "keep the entry pieces, then parse each of them". */
  lemma {:induction false} ParsePiecesIsParseEachOfEntries(pieces: seq<string>)
    ensures ParsePieces(pieces) == ParseEach(Filter(pieces, IsEntryPiece))
    decreases |pieces|
  {
    if |pieces| > 0 {
      ParsePiecesIsParseEachOfEntries(pieces[1..]);
      if IsEntryPiece(pieces[0]) {
        var kept := Filter(pieces, IsEntryPiece);
        assert kept[0] == pieces[0];
        assert kept[1..] == Filter(pieces[1..], IsEntryPiece);
      }
    }
  }

  /** The pieces of a page that `process_page_data` turns into records. */
  function EntryBlocks(data: string): seq<string>
  {
    Filter(Split(data, BlockOpen), IsEntryPiece)
  }

  /** Reference reading of the outer loop: one record per block, in order,
      failing at the first block that fails. */
  function ParseEach(blocks: seq<string>): Result<seq<Entry>, ParseError>
  {
    ParseEachWith(blocks, ParseBlock)
  }

  /** The outer loop over any block parser `parse`. */
  function ParseEachWith(blocks: seq<string>, parse: string -> Result<Entry, ParseError>): Result<seq<Entry>, ParseError>
    decreases |blocks|
  {
    if |blocks| == 0 then Success([])
    else
      match parse(blocks[0])
      case Failure(err) => Failure(err)
      case Success(e) =>
        match ParseEachWith(blocks[1..], parse)
        case Failure(err) => Failure(err)
        case Success(es) => Success([e] + es)
  }

  /** `ParseEach` succeeds exactly when every block parses, and then gives
      each block's record at the block's position. */
  lemma ParseEachRecords(blocks: seq<string>)
    ensures ParseEach(blocks).Success? <==> forall i :: 0 <= i < |blocks| ==> ParseBlock(blocks[i]).Success?
    ensures ParseEach(blocks).Success? ==> |ParseEach(blocks).value| == |blocks|
    ensures ParseEach(blocks).Success? ==>
              forall i :: 0 <= i < |blocks| ==> ParseBlock(blocks[i]) == Success(ParseEach(blocks).value[i])
  {
    ParseEachWithRecords(blocks, ParseBlock);
  }

  lemma {:induction false} ParseEachWithRecords(blocks: seq<string>, parse: string -> Result<Entry, ParseError>)
    ensures ParseEachWith(blocks, parse).Success? <==> forall i :: 0 <= i < |blocks| ==> parse(blocks[i]).Success?
    ensures ParseEachWith(blocks, parse).Success? ==> |ParseEachWith(blocks, parse).value| == |blocks|
    ensures ParseEachWith(blocks, parse).Success? ==>
              forall i :: 0 <= i < |blocks| ==> parse(blocks[i]) == Success(ParseEachWith(blocks, parse).value[i])
    decreases |blocks|
  {
    if |blocks| > 0 {
      var rest := blocks[1..];
      ParseEachWithRecords(rest, parse);
      match parse(blocks[0])
      case Failure(_) =>
      case Success(e) =>
        match ParseEachWith(rest, parse)
        case Failure(_) =>
          var j :| 0 <= j < |rest| && !parse(rest[j]).Success?;
          assert blocks[j + 1] == rest[j];
        case Success(es) =>
          forall i | 0 < i < |blocks|
            ensures parse(blocks[i]) == Success(([e] + es)[i])
          {
            assert blocks[i] == rest[i - 1];
          }
    }
  }

  /** The sale test of `find_sale_items`: slot 4 (`discounted`) is exactly "y". */
  predicate IsOnSale(e: Entry)
  {
    e.discounted == SaleFlag
  }

  /** `find_sale_items`: the discounted records, in their original order. */
  function FindSaleItems(items: seq<Entry>): (r: seq<Entry>)
    ensures |r| <= |items|
    ensures forall i :: 0 <= i < |r| ==> r[i].discounted == SaleFlag
    ensures forall e :: multiset(r)[e] == if e.discounted == SaleFlag then multiset(items)[e] else 0
  {
    FilterCounts(items, IsOnSale);
    Filter(items, IsOnSale)
  }

  /** The pure part of `get_sales_from_wiki`: the discounted records of a page. */
  function GetSales(data: string): (r: Result<seq<Entry>, ParseError>)
    ensures r.Success? <==> ProcessPageData(data).Success?
    ensures r.Success? ==> forall i :: 0 <= i < |r.value| ==> IsOnSale(r.value[i])
    ensures r.Success? ==> forall e :: e in r.value <==> e in ProcessPageData(data).value && IsOnSale(e)
    ensures r.Success? ==>
              forall e :: multiset(r.value)[e] == if IsOnSale(e) then multiset(ProcessPageData(data).value)[e] else 0
  {
    match ProcessPageData(data)
    case Failure(err) => Failure(err)
    case Success(es) => Success(FindSaleItems(es))
  }
}
