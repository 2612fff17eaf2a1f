/** JSON values as they are written, in any spacing, with the faults that models make in their strings, and
    what the two repairs make of such texts. Every byte of the grammar is written out here. */
module JsonTexts {
  import opened Options
  import opened JsonLexer
  import opened CommentRepair
  import LoneBackslashes

  // ---------------------------------------------------------------- strings

  datatype Digit = Digit(value: nat, upper: bool)

  /** One character of a string as it should be written, with its faults: a quote whose backslash was
      dropped, a backslash that was not doubled, and a control byte that was not escaped. */
  datatype Char =
    | Byte(b: byte)
    | Short(letter: byte)
    | Hex(first: Digit, second: Digit, third: Digit, fourth: Digit)
    | Quote(dropped: bool)
    | Lone(next: byte)
    | Control(c: byte)

  predicate IsDigit(d: Digit) {
    d.value < 16
  }

  /** The second byte of a two-byte escape other than the quote's: backslash, slash, b, f, n, r or t. */
  predicate IsShort(b: byte) {
    b == 0x5C || b == 0x2F || b == 0x62 || b == 0x66 || b == 0x6E || b == 0x72 || b == 0x74
  }

  predicate IsChar(c: Char) {
    match c
    case Byte(b) => b >= 0x20 && b != 0x22 && b != 0x5C
    case Short(letter) => IsShort(letter)
    case Hex(p, q, r, s) => IsDigit(p) && IsDigit(q) && IsDigit(r) && IsDigit(s)
    case Quote(_) => true
    case Lone(b) => b >= 0x20 && b != 0x22 && !IsShort(b) && b != 0x75
    case Control(b) => b < 0x20
  }

  predicate AreChars(cs: seq<Char>) {
    forall k :: 0 <= k < |cs| ==> IsChar(cs[k])
  }

  function DigitByte(d: Digit): byte
    requires IsDigit(d)
  {
    if d.value < 10 then 0x30 + d.value else if d.upper then 0x41 + d.value - 10 else 0x61 + d.value - 10
  }

  function HexText(p: Digit, q: Digit, r: Digit, s: Digit): seq<byte>
    requires IsDigit(p) && IsDigit(q) && IsDigit(r) && IsDigit(s)
  {
    [0x5C, 0x75, DigitByte(p), DigitByte(q), DigitByte(r), DigitByte(s)]
  }

  /** The escape of a control byte: a letter where there is one, else its code. */
  function ControlText(c: byte): seq<byte>
    requires c < 0x20
  {
    match c
    case 0x08 => [0x5C, 0x62]
    case 0x09 => [0x5C, 0x74]
    case 0x0A => [0x5C, 0x6E]
    case 0x0C => [0x5C, 0x66]
    case 0x0D => [0x5C, 0x72]
    case _ => HexText(Digit(0, false), Digit(0, false), Digit(c / 16, false), Digit(c % 16, false))
  }

  function CharText(c: Char, faulty: bool): (t: seq<byte>)
    requires IsChar(c)
    ensures t != []
  {
    match c
    case Byte(b) => [b]
    case Short(letter) => [0x5C, letter]
    case Hex(p, q, r, s) => HexText(p, q, r, s)
    case Quote(dropped) => if faulty && dropped then [0x22] else [0x5C, 0x22]
    case Lone(b) => if faulty then [0x5C, b] else [0x5C, 0x5C, b]
    case Control(b) => if faulty then [b] else ControlText(b)
  }

  function CharsText(cs: seq<Char>, faulty: bool): seq<byte>
    requires AreChars(cs)
  {
    if cs == [] then [] else CharText(cs[0], faulty) + CharsText(cs[1..], faulty)
  }

  /** What a character stands for. */
  function Means(c: Char): (v: seq<Unit>)
    requires IsChar(c)
    ensures v != []
  {
    match c
    case Byte(b) => [Raw(b)]
    case Short(letter) =>
      [Raw(match letter
           case 0x62 => 0x08
           case 0x66 => 0x0C
           case 0x6E => 0x0A
           case 0x72 => 0x0D
           case 0x74 => 0x09
           case _ => letter)]
    case Hex(p, q, r, s) =>
      var code := 4096 * p.value + 256 * q.value + 16 * r.value + s.value;
      [if code < 0x80 then Raw(code) else Code(code)]
    case Quote(_) => [Raw(0x22)]
    case Lone(b) => [Raw(0x5C), Raw(b)]
    case Control(b) => [Raw(b)]
  }

  function AllMean(cs: seq<Char>): seq<Unit>
    requires AreChars(cs)
  {
    if cs == [] then [] else Means(cs[0]) + AllMean(cs[1..])
  }

  predicate IsFault(c: Char) {
    c == Quote(true) || c.Lone? || c.Control?
  }

  function FaultsIn(cs: seq<Char>): nat {
    if cs == [] then 0 else (if IsFault(cs[0]) then 1 else 0) + FaultsIn(cs[1..])
  }

  // ---------------------------------------------------------------- values

  /** Numbers and the words true, false and null are bytes without a quote. */
  datatype Json = Bare(text: seq<byte>) | Text(chars: seq<Char>) | List(items: Items) | Object(members: Members)

  datatype Items =
    | NoItem(pad: seq<byte>)
    | LastItem(before: seq<byte>, value: Json, after: seq<byte>)
    | MoreItems(before: seq<byte>, value: Json, after: seq<byte>, rest: Items)

  /** The white space stands before and behind the key, and before and behind the value. */
  datatype Members =
    | NoMember(pad: seq<byte>)
    | LastMember(before: seq<byte>, key: seq<Char>, gap: seq<byte>, lead: seq<byte>, value: Json, after: seq<byte>)
    | MoreMembers(before: seq<byte>, key: seq<Char>, gap: seq<byte>, lead: seq<byte>, value: Json, after: seq<byte>, rest: Members)

  predicate IsBlank(b: byte) {
    b == 0x20 || b == 0x09 || b == 0x0A || b == 0x0D
  }

  predicate AreBlank(pad: seq<byte>) {
    forall k :: 0 <= k < |pad| ==> IsBlank(pad[k])
  }

  predicate IsJson(v: Json)
    decreases v
  {
    match v
    case Bare(text) => text != [] && 0x22 !in text
    case Text(chars) => AreChars(chars)
    case List(items) => AreItems(items)
    case Object(members) => AreMembers(members)
  }

  predicate AreItems(items: Items)
    decreases items
  {
    match items
    case NoItem(pad) => AreBlank(pad)
    case LastItem(before, v, after) => AreBlank(before) && IsJson(v) && AreBlank(after)
    case MoreItems(before, v, after, rest) =>
      AreBlank(before) && IsJson(v) && AreBlank(after) && !rest.NoItem? && AreItems(rest)
  }

  predicate AreMembers(members: Members)
    decreases members
  {
    match members
    case NoMember(pad) => AreBlank(pad)
    case LastMember(before, key, gap, lead, v, after) =>
      AreBlank(before) && AreChars(key) && AreBlank(gap) && AreBlank(lead) && IsJson(v) && AreBlank(after)
    case MoreMembers(before, key, gap, lead, v, after, rest) =>
      && AreBlank(before) && AreChars(key) && AreBlank(gap) && AreBlank(lead) && IsJson(v) && AreBlank(after)
      && !rest.NoMember? && AreMembers(rest)
  }

  // ---------------------------------------------------------------- printing

  /** A text in pieces: its strings, and what stands between them. */
  datatype Part = Marks(bytes: seq<byte>) | Quoted(chars: seq<Char>)

  function Print(v: Json): seq<Part>
    decreases v, 0
  {
    match v
    case Bare(text) => [Marks(text)]
    case Text(chars) => [Quoted(chars)]
    case List(items) => [Marks([0x5B])] + PrintItems(items) + [Marks([0x5D])]
    case Object(members) => [Marks([0x7B])] + PrintMembers(members) + [Marks([0x7D])]
  }

  function PrintItems(items: Items): seq<Part>
    decreases items, 0
  {
    match items
    case NoItem(pad) => [Marks(pad)]
    case LastItem(before, v, after) => [Marks(before)] + Print(v) + [Marks(after)]
    case MoreItems(before, v, after, rest) => [Marks(before)] + Print(v) + ([Marks(after + [0x2C])] + PrintItems(rest))
  }

  function PrintMembers(members: Members): seq<Part>
    decreases members, 0
  {
    match members
    case NoMember(pad) => [Marks(pad)]
    case LastMember(before, key, gap, lead, v, after) =>
      [Marks(before), Quoted(key), Marks(gap + [0x3A] + lead)] + Print(v) + [Marks(after)]
    case MoreMembers(before, key, gap, lead, v, after, rest) =>
      [Marks(before), Quoted(key), Marks(gap + [0x3A] + lead)] + Print(v) + ([Marks(after + [0x2C])] + PrintMembers(rest))
  }

  predicate IsPart(p: Part) {
    match p case Marks(bytes) => 0x22 !in bytes case Quoted(chars) => AreChars(chars)
  }

  predicate AreParts(parts: seq<Part>) {
    forall k :: 0 <= k < |parts| ==> IsPart(parts[k])
  }

  function PartText(p: Part, faulty: bool): seq<byte>
    requires IsPart(p)
  {
    match p case Marks(bytes) => bytes case Quoted(chars) => [0x22] + (CharsText(chars, faulty) + [0x22])
  }

  function PartsText(parts: seq<Part>, faulty: bool): seq<byte>
    requires AreParts(parts)
  {
    if parts == [] then [] else PartText(parts[0], faulty) + PartsText(parts[1..], faulty)
  }

  /** The value with white space around it. */
  function Document(front: seq<byte>, v: Json, back: seq<byte>): seq<Part> {
    [Marks(front)] + Print(v) + [Marks(back)]
  }

  // ---------------------------------------------------------------- what follows a string

  /** White space and then a comma, a colon, a closing bracket or brace, or the end. */
  predicate Ends(rest: seq<byte>) {
    rest == []
    || rest[0] == 0x2C || rest[0] == 0x3A || rest[0] == 0x5D || rest[0] == 0x7D
    || (IsBlank(rest[0]) && Ends(rest[1..]))
  }

  lemma {:induction false} EndsIffCloses(rest: seq<byte>)
    ensures Ends(rest) <==> Closes(rest)
    decreases |rest|
  {
    if rest != [] && IsBlank(rest[0]) {
      EndsIffCloses(rest[1..]);
    }
  }

  lemma {:induction false} EndsBehind(pad: seq<byte>, rest: seq<byte>)
    requires AreBlank(pad) && Ends(rest)
    ensures Ends(pad + rest)
    decreases |pad|
  {
    if pad == [] {
      assert pad + rest == rest;
    } else {
      EndsBehind(pad[1..], rest);
      assert (pad + rest)[1..] == pad[1..] + rest;
    }
  }

  /** Every string is followed by such a byte or the end. */
  ghost predicate Followed(parts: seq<Part>, faulty: bool)
    requires AreParts(parts)
  {
    parts == []
    || ((parts[0].Quoted? ==> Ends(PartsText(parts[1..], faulty))) && Followed(parts[1..], faulty))
  }

  lemma {:induction false} PartsConcat(a: seq<Part>, b: seq<Part>, faulty: bool)
    requires AreParts(a) && AreParts(b)
    ensures AreParts(a + b) && PartsText(a + b, faulty) == PartsText(a, faulty) + PartsText(b, faulty)
    decreases |a|
  {
    hide IsPart, PartText;
    if a == [] {
      assert a + b == b;
    } else {
      PartsConcat(a[1..], b, faulty);
      assert (a + b)[1..] == a[1..] + b;
    }
  }

  lemma MarksInFront(bytes: seq<byte>, parts: seq<Part>, faulty: bool)
    requires 0x22 !in bytes && AreParts(parts)
    ensures var all := [Marks(bytes)] + parts;
            && AreParts(all) && PartsText(all, faulty) == bytes + PartsText(parts, faulty)
            && (Followed(parts, faulty) ==> Followed(all, faulty))
  {
    hide CharsText;
    var all := [Marks(bytes)] + parts;
    assert all[1..] == parts;
    assert forall k :: 1 <= k < |all| ==> all[k] == parts[k - 1];
  }

  lemma QuotedInFront(chars: seq<Char>, parts: seq<Part>, faulty: bool)
    requires AreChars(chars) && AreParts(parts) && Followed(parts, faulty) && Ends(PartsText(parts, faulty))
    ensures var all := [Quoted(chars)] + parts;
            AreParts(all) && Followed(all, faulty)
  {
    hide CharsText, AreChars;
    var all := [Quoted(chars)] + parts;
    assert all[1..] == parts;
    assert forall k :: 1 <= k < |all| ==> all[k] == parts[k - 1];
  }

  lemma BlankHasNoQuote(pad: seq<byte>)
    requires AreBlank(pad)
    ensures 0x22 !in pad
  {
  }

  /** In a printed value every string is followed by structure, if the value is. */
  lemma {:induction false} PrintedIsFollowed(v: Json, more: seq<Part>, faulty: bool)
    requires IsJson(v) && AreParts(more) && Followed(more, faulty) && Ends(PartsText(more, faulty))
    ensures AreParts(Print(v) + more) && Followed(Print(v) + more, faulty)
    decreases v, 1
  {
    hide Followed, PartsText, AreParts, Ends, AreChars;
    match v
    case Bare(text) => MarksInFront(text, more, faulty);
    case Text(chars) => QuotedInFront(chars, more, faulty);
    case List(items) =>
      MarksInFront([0x5D], more, faulty);
      EndsAt(0x5D, PartsText(more, faulty));
      ItemsAreFollowed(items, [Marks([0x5D])] + more, faulty);
      MarksInFront([0x5B], PrintItems(items) + ([Marks([0x5D])] + more), faulty);
      assert Print(v) + more == [Marks([0x5B])] + (PrintItems(items) + ([Marks([0x5D])] + more));
    case Object(members) =>
      MarksInFront([0x7D], more, faulty);
      EndsAt(0x7D, PartsText(more, faulty));
      MembersAreFollowed(members, [Marks([0x7D])] + more, faulty);
      MarksInFront([0x7B], PrintMembers(members) + ([Marks([0x7D])] + more), faulty);
      assert Print(v) + more == [Marks([0x7B])] + (PrintMembers(members) + ([Marks([0x7D])] + more));
  }

  lemma EndsAt(b: byte, rest: seq<byte>)
    requires b == 0x2C || b == 0x3A || b == 0x5D || b == 0x7D
    ensures Ends([b] + rest)
  {
  }

  lemma {:induction false} ItemsAreFollowed(items: Items, more: seq<Part>, faulty: bool)
    requires AreItems(items) && AreParts(more) && Followed(more, faulty) && Ends(PartsText(more, faulty))
    ensures AreParts(PrintItems(items) + more) && Followed(PrintItems(items) + more, faulty)
    decreases items, 0
  {
    hide Followed, PartsText, AreParts, Ends, AreBlank;
    match items
    case NoItem(pad) =>
      BlankHasNoQuote(pad);
      MarksInFront(pad, more, faulty);
    case LastItem(before, v, after) =>
      BlankHasNoQuote(before);
      ValueIsFollowed(v, after, more, faulty);
      MarksInFront(before, Print(v) + ([Marks(after)] + more), faulty);
      assert PrintItems(items) + more == [Marks(before)] + (Print(v) + ([Marks(after)] + more));
    case MoreItems(before, v, after, rest) =>
      ItemsAreFollowed(rest, more, faulty);
      BlankHasNoQuote(before);
      ValueIsSeparated(v, after, PrintItems(rest) + more, faulty);
      MarksInFront(before, Print(v) + ([Marks(after + [0x2C])] + (PrintItems(rest) + more)), faulty);
      assert PrintItems(items) + more
             == [Marks(before)] + (Print(v) + ([Marks(after + [0x2C])] + (PrintItems(rest) + more)));
  }

  lemma {:induction false} ValueIsFollowed(v: Json, after: seq<byte>, more: seq<Part>, faulty: bool)
    requires IsJson(v) && AreBlank(after) && AreParts(more) && Followed(more, faulty) && Ends(PartsText(more, faulty))
    ensures var all := Print(v) + ([Marks(after)] + more); AreParts(all) && Followed(all, faulty)
    decreases v, 2
  {
    hide Followed, PartsText, AreParts, Ends, AreBlank;
    BlankHasNoQuote(after);
    MarksInFront(after, more, faulty);
    EndsBehind(after, PartsText(more, faulty));
    PrintedIsFollowed(v, [Marks(after)] + more, faulty);
  }

  lemma {:induction false} ValueIsSeparated(v: Json, after: seq<byte>, more: seq<Part>, faulty: bool)
    requires IsJson(v) && AreBlank(after) && AreParts(more) && Followed(more, faulty)
    ensures var all := Print(v) + ([Marks(after + [0x2C])] + more); AreParts(all) && Followed(all, faulty)
    decreases v, 2
  {
    hide Followed, PartsText, AreParts, Ends, AreBlank;
    BlankHasNoQuote(after);
    MarksInFront(after + [0x2C], more, faulty);
    EndsAt(0x2C, PartsText(more, faulty));
    EndsBehind(after, [0x2C] + PartsText(more, faulty));
    assert after + [0x2C] + PartsText(more, faulty) == after + ([0x2C] + PartsText(more, faulty));
    PrintedIsFollowed(v, [Marks(after + [0x2C])] + more, faulty);
  }

  lemma KeyIsFollowed(before: seq<byte>, key: seq<Char>, gap: seq<byte>, lead: seq<byte>, more: seq<Part>, faulty: bool)
    requires AreBlank(before) && AreChars(key) && AreBlank(gap) && AreBlank(lead) && AreParts(more) && Followed(more, faulty)
    ensures var all := [Marks(before), Quoted(key), Marks(gap + [0x3A] + lead)] + more; AreParts(all) && Followed(all, faulty)
  {
    hide Followed, PartsText, AreParts, Ends, AreBlank, AreChars;
    BlankHasNoQuote(before);
    BlankHasNoQuote(gap);
    BlankHasNoQuote(lead);
    var colon := gap + [0x3A] + lead;
    MarksInFront(colon, more, faulty);
    EndsAt(0x3A, lead + PartsText(more, faulty));
    EndsBehind(gap, [0x3A] + (lead + PartsText(more, faulty)));
    assert colon + PartsText(more, faulty) == gap + ([0x3A] + (lead + PartsText(more, faulty)));
    QuotedInFront(key, [Marks(colon)] + more, faulty);
    MarksInFront(before, [Quoted(key)] + ([Marks(colon)] + more), faulty);
    assert [Marks(before), Quoted(key), Marks(colon)] + more == [Marks(before)] + ([Quoted(key)] + ([Marks(colon)] + more));
  }

  lemma {:induction false} MembersAreFollowed(members: Members, more: seq<Part>, faulty: bool)
    requires AreMembers(members) && AreParts(more) && Followed(more, faulty) && Ends(PartsText(more, faulty))
    ensures AreParts(PrintMembers(members) + more) && Followed(PrintMembers(members) + more, faulty)
    decreases members, 0
  {
    hide Followed, PartsText, AreParts, Ends, AreBlank, AreChars;
    match members
    case NoMember(pad) =>
      BlankHasNoQuote(pad);
      MarksInFront(pad, more, faulty);
    case LastMember(before, key, gap, lead, v, after) =>
      ValueIsFollowed(v, after, more, faulty);
      KeyIsFollowed(before, key, gap, lead, Print(v) + ([Marks(after)] + more), faulty);
      assert PrintMembers(members) + more
             == [Marks(before), Quoted(key), Marks(gap + [0x3A] + lead)] + (Print(v) + ([Marks(after)] + more));
    case MoreMembers(before, key, gap, lead, v, after, rest) =>
      MembersAreFollowed(rest, more, faulty);
      ValueIsSeparated(v, after, PrintMembers(rest) + more, faulty);
      KeyIsFollowed(before, key, gap, lead, Print(v) + ([Marks(after + [0x2C])] + (PrintMembers(rest) + more)), faulty);
      assert PrintMembers(members) + more
             == [Marks(before), Quoted(key), Marks(gap + [0x3A] + lead)]
                + (Print(v) + ([Marks(after + [0x2C])] + (PrintMembers(rest) + more)));
  }

  lemma DocumentIsFollowed(front: seq<byte>, v: Json, back: seq<byte>, faulty: bool)
    requires AreBlank(front) && IsJson(v) && AreBlank(back)
    ensures AreParts(Document(front, v, back)) && Followed(Document(front, v, back), faulty)
  {
    NothingFollows(faulty);
    hide Followed, PartsText, AreParts, Ends, AreBlank;
    BlankHasNoQuote(front);
    ValueIsFollowed(v, back, [], faulty);
    MarksInFront(front, Print(v) + ([Marks(back)] + []), faulty);
    assert Document(front, v, back) == [Marks(front)] + (Print(v) + ([Marks(back)] + []));
  }

  lemma NothingFollows(faulty: bool)
    ensures AreParts([]) && Followed([], faulty) && Ends(PartsText([], faulty))
  {
  }

  // ---------------------------------------------------------------- one character repaired

  lemma DigitIsHex(d: Digit)
    requires IsDigit(d)
    ensures IsHexDigit(DigitByte(d)) && HexValue(DigitByte(d)) == d.value
  {
  }

  /** The four digits of an escape are read as one number. */
  lemma HexReads(p: Digit, q: Digit, r: Digit, s: Digit, rest: seq<byte>)
    requires IsDigit(p) && IsDigit(q) && IsDigit(r) && IsDigit(s)
    ensures var t := HexText(p, q, r, s) + rest;
            && EscapeLength(t) == 6 && t[6..] == rest && t[..6] == HexText(p, q, r, s)
            && [EscapeUnit(t)] == Means(Hex(p, q, r, s))
  {
    DigitIsHex(p);
    DigitIsHex(q);
    DigitIsHex(r);
    DigitIsHex(s);
    hide DigitByte, IsHexDigit, HexValue;
    var t := HexText(p, q, r, s) + rest;
    assert t[1] == 0x75 && t[2..][0] == DigitByte(p) && t[2..][1] == DigitByte(q) && t[2..][2] == DigitByte(r) && t[2..][3] == DigitByte(s);
  }

  lemma ShortReads(b: byte, rest: seq<byte>)
    requires IsShort(b) || b == 0x22
    ensures var t := [0x5C, b] + rest;
            && EscapeLength(t) == 2 && t[2..] == rest && t[..2] == [0x5C, b]
            && [EscapeUnit(t)] == Means(if b == 0x22 then Quote(false) else Short(b))
  {
  }

  lemma LoneReads(b: byte, rest: seq<byte>)
    requires IsChar(Lone(b))
    ensures EscapeLength([0x5C, b] + rest) == 0
  {
  }

  lemma ControlIsEscaped(c: byte)
    requires c < 0x20
    ensures EscapeControl(c) == ControlText(c)
  {
  }

  lemma EscapedReads(c: Char, rest: seq<byte>)
    requires c.Short? || c.Hex? || c == Quote(false)
    requires IsChar(c)
    ensures var t := CharText(c, true) + rest;
            && t[0] == 0x5C && EscapeLength(t) == |CharText(c, true)| && t[EscapeLength(t)..] == rest
            && t[..EscapeLength(t)] == CharText(c, true) && [EscapeUnit(t)] == Means(c)
  {
    match c
    case Short(letter) => ShortReads(letter, rest);
    case Hex(p, q, r, s) => HexReads(p, q, r, s, rest);
    case Quote(_) => ShortReads(0x22, rest);
  }

  lemma ByteIsCopied(b: byte, rest: seq<byte>)
    requires IsChar(Byte(b))
    ensures RepairString([b] + rest) == Emit([b], 0, RepairString(rest))
  {
    assert ([b] + rest)[1..] == rest;
  }

  lemma EscapedIsCopied(c: Char, rest: seq<byte>)
    requires c.Short? || c.Hex? || c == Quote(false)
    requires IsChar(c)
    ensures RepairString(CharText(c, true) + rest) == Emit(CharText(c, true), 0, RepairString(rest))
  {
    EscapedReads(c, rest);
    hide RepairString, CharText, EscapeLength;
    EscapeIsCopied(CharText(c, true) + rest);
  }

  lemma QuoteIsEscaped(rest: seq<byte>)
    requires !Ends(rest)
    ensures RepairString([0x22] + rest) == Emit([0x5C, 0x22], 1, RepairString(rest))
  {
    EndsIffCloses(rest);
    assert ([0x22] + rest)[1..] == rest;
  }

  lemma LoneIsDoubled(b: byte, rest: seq<byte>)
    requires IsChar(Lone(b))
    ensures RepairString([0x5C, b] + rest) == Emit([0x5C, 0x5C, b], 1, RepairString(rest))
  {
    LoneReads(b, rest);
    assert ([0x5C, b] + rest)[1..] == [b] + rest;
    ByteIsCopied(b, rest);
    hide RepairString, EscapeLength;
    EmitEmit([0x5C, 0x5C], 1, [b], 0, RepairString(rest));
    assert [0x5C, 0x5C] + [b] == [0x5C, 0x5C, b];
  }

  lemma ControlIsRepaired(c: byte, rest: seq<byte>)
    requires c < 0x20
    ensures RepairString([c] + rest) == Emit(ControlText(c), 1, RepairString(rest))
  {
    ControlIsEscaped(c);
    assert ([c] + rest)[1..] == rest;
  }

  /** Each character comes out as it should be written, and a fault is counted, unless it is a bare quote
      with structure behind it. */
  lemma CharIsRepaired(c: Char, rest: seq<byte>)
    requires IsChar(c) && (c == Quote(true) ==> !Ends(rest))
    ensures RepairString(CharText(c, true) + rest)
            == Emit(CharText(c, false), if IsFault(c) then 1 else 0, RepairString(rest))
  {
    hide RepairString, Ends;
    match c
    case Byte(b) => ByteIsCopied(b, rest);
    case Short(_) => EscapedIsCopied(c, rest);
    case Hex(_, _, _, _) => EscapedIsCopied(c, rest);
    case Quote(dropped) => if dropped { QuoteIsEscaped(rest); } else { EscapedIsCopied(c, rest); }
    case Lone(b) => LoneIsDoubled(b, rest);
    case Control(b) => ControlIsRepaired(b, rest);
  }

  // ---------------------------------------------------------------- strings and texts repaired

  /** A bare quote in the string looks like its end. */
  ghost predicate IsCut(cs: seq<Char>, rest: seq<byte>, k: nat)
    requires AreChars(cs)
  {
    k < |cs| && cs[k] == Quote(true) && Ends(CharsText(cs[k + 1..], true) + ([0x22] + rest))
  }

  lemma CutBehind(cs: seq<Char>, rest: seq<byte>, k: nat)
    requires AreChars(cs) && cs != []
    ensures IsCut(cs[1..], rest, k) <==> IsCut(cs, rest, k + 1)
  {
    hide CharsText, Ends;
    assert k < |cs[1..]| ==> cs[1..][k + 1..] == cs[k + 2..];
  }

  lemma {:induction false} StringIsRepaired(cs: seq<Char>, rest: seq<byte>)
    requires AreChars(cs) && Ends(rest) && forall k: nat :: !IsCut(cs, rest, k)
    ensures RepairString(CharsText(cs, true) + ([0x22] + rest))
            == Emit(CharsText(cs, false) + [0x22], FaultsIn(cs), Repair(rest))
    decreases |cs|
  {
    hide RepairString, Repair, IsCut, CharText, Ends, IsFault;
    if cs == [] {
      StringIsEnded(rest);
      assert CharsText(cs, true) + ([0x22] + rest) == [0x22] + rest && CharsText(cs, false) + [0x22] == [0x22];
    } else {
      var c, tail := cs[0], CharsText(cs[1..], true) + ([0x22] + rest);
      forall k: nat ensures !IsCut(cs[1..], rest, k) {
        CutBehind(cs, rest, k);
      }
      FirstIsNoCut(cs, rest);
      CharIsRepaired(c, tail);
      StringIsRepaired(cs[1..], rest);
      assert CharsText(cs, true) + ([0x22] + rest) == CharText(c, true) + tail;
      EmitEmit(CharText(c, false), if IsFault(c) then 1 else 0, CharsText(cs[1..], false) + [0x22], FaultsIn(cs[1..]), Repair(rest));
      assert CharText(c, false) + (CharsText(cs[1..], false) + [0x22]) == CharsText(cs, false) + [0x22];
    }
  }

  lemma FirstIsNoCut(cs: seq<Char>, rest: seq<byte>)
    requires AreChars(cs) && cs != [] && !IsCut(cs, rest, 0)
    ensures cs[0] == Quote(true) ==> !Ends(CharsText(cs[1..], true) + ([0x22] + rest))
  {
  }

  lemma StringIsEnded(rest: seq<byte>)
    requires Ends(rest)
    ensures RepairString([0x22] + rest) == Emit([0x22], 0, Repair(rest))
  {
    EndsIffCloses(rest);
    assert ([0x22] + rest)[1..] == rest;
  }

  /** Some bare quote of the text has structure behind it. */
  ghost predicate IsMisread(parts: seq<Part>)
    requires AreParts(parts)
  {
    exists i: nat, k: nat :: CutsAt(parts, i, k)
  }

  ghost predicate CutsAt(parts: seq<Part>, i: nat, k: nat)
    requires AreParts(parts)
  {
    i < |parts| && parts[i].Quoted? && IsPart(parts[i]) && AreParts(parts[i + 1..])
    && IsCut(parts[i].chars, PartsText(parts[i + 1..], true), k)
  }

  lemma TailsAreParts(parts: seq<Part>, i: nat)
    requires AreParts(parts) && i <= |parts|
    ensures AreParts(parts[i..])
  {
    hide IsPart;
  }

  lemma CutsShift(parts: seq<Part>, i: nat, k: nat)
    requires AreParts(parts) && parts != [] && AreParts(parts[1..])
    ensures CutsAt(parts, i + 1, k) <==> CutsAt(parts[1..], i, k)
  {
    hide IsCut, PartsText, IsPart;
    if i + 1 < |parts| {
      assert parts[1..][i + 1..] == parts[i + 2..];
    }
  }

  lemma CutsBehind(parts: seq<Part>)
    requires AreParts(parts) && parts != []
    ensures AreParts(parts[1..]) && IsPart(parts[0])
    ensures IsMisread(parts) <==>
            (parts[0].Quoted? && exists k: nat :: IsCut(parts[0].chars, PartsText(parts[1..], true), k)) || IsMisread(parts[1..])
  {
    TailsAreParts(parts, 1);
    assert IsPart(parts[0]);
    hide IsCut, PartsText, IsPart;
    if IsMisread(parts) {
      var i: nat, k: nat :| CutsAt(parts, i, k);
      if i > 0 {
        CutsShift(parts, i - 1, k);
      } else {
        assert parts[0 + 1..] == parts[1..] && IsCut(parts[0].chars, PartsText(parts[1..], true), k);
      }
    }
    if IsMisread(parts[1..]) {
      var i: nat, k: nat :| CutsAt(parts[1..], i, k);
      CutsShift(parts, i, k);
    }
    if parts[0].Quoted? && exists k: nat :: IsCut(parts[0].chars, PartsText(parts[1..], true), k) {
      var k: nat :| IsCut(parts[0].chars, PartsText(parts[1..], true), k);
      assert CutsAt(parts, 0, k);
    }
  }

  function Faults(parts: seq<Part>): nat {
    if parts == [] then 0 else (if parts[0].Quoted? then FaultsIn(parts[0].chars) else 0) + Faults(parts[1..])
  }

  lemma {:induction false} MarksAreCopied(bytes: seq<byte>, rest: seq<byte>)
    requires 0x22 !in bytes
    ensures Repair(bytes + rest) == Emit(bytes, 0, Repair(rest))
    decreases |bytes|
  {
    if bytes == [] {
      assert bytes + rest == rest;
    } else {
      MarksAreCopied(bytes[1..], rest);
      assert bytes[0] != 0x22 && (bytes + rest)[1..] == bytes[1..] + rest;
    }
  }

  lemma QuotedIsRepaired(chars: seq<Char>, rest: seq<byte>)
    requires AreChars(chars) && Ends(rest) && forall k: nat :: !IsCut(chars, rest, k)
    ensures Repair(PartText(Quoted(chars), true) + rest)
            == Emit(PartText(Quoted(chars), false), FaultsIn(chars), Repair(rest))
  {
    hide CharsText, IsCut, RepairString, Ends;
    StringIsRepaired(chars, rest);
    var s := CharsText(chars, true) + ([0x22] + rest);
    assert PartText(Quoted(chars), true) + rest == [0x22] + s;
    assert ([0x22] + s)[1..] == s;
    assert Repair([0x22] + s) == Emit([0x22], 0, RepairString(s));
    EmitEmit([0x22], 0, CharsText(chars, false) + [0x22], FaultsIn(chars), Repair(rest));
  }

  lemma {:induction false} PartsAreRepaired(parts: seq<Part>)
    requires AreParts(parts) && Followed(parts, true) && !IsMisread(parts)
    ensures Repair(PartsText(parts, true)) == Repaired(PartsText(parts, false), Faults(parts))
    decreases |parts|
  {
    hide Repair, IsCut, PartText, Ends, IsMisread;
    if parts == [] {
      NothingIsRepaired();
    } else {
      var p, rest := parts[0], parts[1..];
      assert IsPart(p) && AreParts(rest);
      CutsBehind(parts);
      PartsAreRepaired(rest);
      match p {
        case Marks(bytes) =>
          MarksAreCopied(bytes, PartsText(rest, true));
          MarksAreThemselves(bytes);
        case Quoted(chars) => QuotedIsRepaired(chars, PartsText(rest, true));
      }
    }
  }

  lemma MarksAreThemselves(bytes: seq<byte>)
    requires 0x22 !in bytes
    ensures PartText(Marks(bytes), true) == PartText(Marks(bytes), false) == bytes
  {
  }

  lemma NothingIsRepaired()
    ensures Repair([]) == Repaired([], 0)
  {
  }

  // ---------------------------------------------------------------- what the texts mean

  function Tokens(parts: seq<Part>): seq<Token>
    requires AreParts(parts)
  {
    if parts == [] then []
    else
      (match parts[0] case Marks(bytes) => Gaps(bytes) case Quoted(chars) => [Literal(AllMean(chars))]) + Tokens(parts[1..])
  }

  lemma PlainStrictly(b: byte, rest: seq<byte>, value: seq<Unit>)
    requires IsChar(Byte(b))
    ensures StrictString([b] + rest, value) == StrictString(rest, value + [Raw(b)])
    ensures LenientString([b] + rest, value) == LenientString(rest, value + [Raw(b)])
  {
    assert ([b] + rest)[1..] == rest;
  }

  lemma EscapedStrictly(s: seq<byte>, value: seq<Unit>)
    requires s != [] && s[0] == BACKSLASH && EscapeLength(s) > 0
    ensures StrictString(s, value) == StrictString(s[EscapeLength(s)..], value + [EscapeUnit(s)])
    ensures LenientString(s, value) == LenientString(s[EscapeLength(s)..], value + [EscapeUnit(s)])
  {
  }

  lemma ControlMeans(c: byte, rest: seq<byte>, value: seq<Unit>)
    requires c < 0x20
    ensures StrictString(ControlText(c) + rest, value) == StrictString(rest, value + [Raw(c)])
  {
    ControlIsEscaped(c);
    ControlRoundTrip(c, rest);
    hide EscapeControl, ControlText, EscapeLength, EscapeUnit;
    EscapedStrictly(EscapeControl(c) + rest, value);
  }

  lemma LoneMeans(b: byte, rest: seq<byte>, value: seq<Unit>)
    requires IsChar(Lone(b))
    ensures StrictString([0x5C, 0x5C, b] + rest, value) == StrictString(rest, value + [Raw(0x5C), Raw(b)])
  {
    ShortReads(0x5C, [b] + rest);
    assert [0x5C, 0x5C, b] + rest == [0x5C, 0x5C] + ([b] + rest);
    assert Means(Short(0x5C)) == [Raw(0x5C)];
    hide EscapeLength, EscapeUnit;
    EscapedStrictly([0x5C, 0x5C] + ([b] + rest), value);
    PlainStrictly(b, rest, value + [Raw(0x5C)]);
    assert value + [Raw(0x5C)] + [Raw(b)] == value + [Raw(0x5C), Raw(b)];
  }

  /** A character as it should be written reads as what it stands for. */
  lemma CharMeans(c: Char, rest: seq<byte>, value: seq<Unit>)
    requires IsChar(c)
    ensures StrictString(CharText(c, false) + rest, value) == StrictString(rest, value + Means(c))
  {
    hide StrictString, EscapeLength, EscapeUnit;
    match c
    case Byte(b) => PlainStrictly(b, rest, value);
    case Short(_) => EscapedReads(c, rest); EscapedStrictly(CharText(c, false) + rest, value);
    case Hex(_, _, _, _) => EscapedReads(c, rest); EscapedStrictly(CharText(c, false) + rest, value);
    case Quote(_) => EscapedReads(Quote(false), rest); EscapedStrictly(CharText(c, false) + rest, value);
    case Lone(b) => LoneMeans(b, rest, value);
    case Control(b) => ControlMeans(b, rest, value);
  }

  lemma {:induction false} StringMeans(cs: seq<Char>, rest: seq<byte>, value: seq<Unit>)
    requires AreChars(cs)
    ensures StrictString(CharsText(cs, false) + ([0x22] + rest), value) == Prepend(Literal(value + AllMean(cs)), Strict(rest))
    decreases |cs|
  {
    hide CharText, Means, StrictString, Strict;
    if cs == [] {
      assert CharsText(cs, false) + ([0x22] + rest) == [0x22] + rest && value + AllMean(cs) == value;
      EndMeans(rest, value);
    } else {
      var tail := CharsText(cs[1..], false) + ([0x22] + rest);
      CharMeans(cs[0], tail, value);
      StringMeans(cs[1..], rest, value + Means(cs[0]));
      assert CharsText(cs, false) + ([0x22] + rest) == CharText(cs[0], false) + tail;
      assert value + Means(cs[0]) + AllMean(cs[1..]) == value + AllMean(cs);
    }
  }

  lemma EndMeans(rest: seq<byte>, value: seq<Unit>)
    ensures StrictString([0x22] + rest, value) == Prepend(Literal(value), Strict(rest))
  {
    assert ([0x22] + rest)[1..] == rest;
  }

  lemma QuotedMeans(chars: seq<Char>, rest: seq<byte>)
    requires AreChars(chars)
    ensures Strict(PartText(Quoted(chars), false) + rest) == Prepend(Literal(AllMean(chars)), Strict(rest))
  {
    hide CharsText, AllMean, StrictString;
    var s := CharsText(chars, false) + ([0x22] + rest);
    StringMeans(chars, rest, []);
    assert [] + AllMean(chars) == AllMean(chars);
    assert PartText(Quoted(chars), false) + rest == [0x22] + s;
    assert ([0x22] + s)[1..] == s;
  }

  /** The text as it should be written reads as its strings, value for value, with the other bytes between. */
  lemma {:induction false} PrintedMeans(parts: seq<Part>)
    requires AreParts(parts)
    ensures Strict(PartsText(parts, false)) == Some(Tokens(parts))
    decreases |parts|
  {
    hide CharsText, AllMean, Strict, PartText, Gaps;
    if parts == [] {
      NothingMeans();
    } else {
      TailsAreParts(parts, 1);
      assert IsPart(parts[0]);
      PrintedMeans(parts[1..]);
      match parts[0] {
        case Marks(bytes) =>
          MarksAreThemselves(bytes);
          GapReads(bytes, PartsText(parts[1..], false));
        case Quoted(chars) => QuotedMeans(chars, PartsText(parts[1..], false));
      }
    }
  }

  lemma NothingMeans()
    ensures Strict([]) == Some([])
  {
  }

  /** A faulty character still reads as what it stands for, unless it is a bare quote with structure behind it. */
  lemma FaultyCharReads(c: Char, rest: seq<byte>, value: seq<Unit>)
    requires IsChar(c) && (c == Quote(true) ==> !Ends(rest))
    ensures LenientString(CharText(c, true) + rest, value) == LenientString(rest, value + Means(c))
  {
    hide EscapeUnit, Ends;
    match c
    case Byte(b) => PlainStrictly(b, rest, value);
    case Short(_) => EscapedReads(c, rest); EscapedStrictly(CharText(c, true) + rest, value);
    case Hex(_, _, _, _) => EscapedReads(c, rest); EscapedStrictly(CharText(c, true) + rest, value);
    case Quote(dropped) =>
      if dropped {
        EndsIffCloses(rest);
        assert ([0x22] + rest)[1..] == rest;
      } else {
        EscapedReads(c, rest);
        EscapedStrictly(CharText(c, true) + rest, value);
      }
    case Lone(b) => FaultyLoneReads(b, rest, value);
    case Control(b) => assert ([b] + rest)[1..] == rest;
  }

  lemma FaultyLoneReads(b: byte, rest: seq<byte>, value: seq<Unit>)
    requires IsChar(Lone(b))
    ensures LenientString([0x5C, b] + rest, value) == LenientString(rest, value + [Raw(0x5C), Raw(b)])
  {
    LoneReads(b, rest);
    assert ([0x5C, b] + rest)[1..] == [b] + rest;
    PlainStrictly(b, rest, value + [Raw(0x5C)]);
    assert value + [Raw(0x5C)] + [Raw(b)] == value + [Raw(0x5C), Raw(b)];
  }

  /** Where the reading of a string ends: at its first bare quote with structure behind it, or at its end. */
  ghost predicate IsEnd(cs: seq<Char>, rest: seq<byte>, n: nat)
    requires AreChars(cs)
  {
    n <= |cs| && (n < |cs| ==> IsCut(cs, rest, n)) && forall k: nat :: k < n ==> !IsCut(cs, rest, k)
  }

  lemma {:induction false} SomeEnd(cs: seq<Char>, rest: seq<byte>, from: nat) returns (n: nat)
    requires AreChars(cs) && from <= |cs| && forall k: nat :: k < from ==> !IsCut(cs, rest, k)
    ensures IsEnd(cs, rest, n)
    decreases |cs| - from
  {
    hide IsCut;
    n := from;
    if from < |cs| && !IsCut(cs, rest, from) {
      n := SomeEnd(cs, rest, from + 1);
    }
  }

  lemma TailsAreChars(cs: seq<Char>, n: nat)
    requires AreChars(cs) && n <= |cs|
    ensures AreChars(cs[..n]) && AreChars(cs[n..])
  {
    hide IsChar;
  }

  /** What is read behind the end. */
  function Remainder(cs: seq<Char>, rest: seq<byte>, n: nat): seq<byte>
    requires AreChars(cs) && n <= |cs|
  {
    if n == |cs| then rest else CharsText(cs[n + 1..], true) + ([0x22] + rest)
  }

  /** The value kept is what stands in front of that end. */
  lemma {:induction false} FaultyStringReads(cs: seq<Char>, rest: seq<byte>, value: seq<Unit>, n: nat)
    requires AreChars(cs) && Ends(rest) && IsEnd(cs, rest, n)
    ensures AreChars(cs[..n])
    ensures LenientString(CharsText(cs, true) + ([0x22] + rest), value)
            == [Literal(value + AllMean(cs[..n]))] + Lenient(Remainder(cs, rest, n))
    decreases |cs|
  {
    hide LenientString, Lenient, CharText, Means, Ends;
    TailsAreChars(cs, n);
    if n == 0 {
      assert value + AllMean(cs[..n]) == value;
      if cs == [] {
        assert CharsText(cs, true) + ([0x22] + rest) == [0x22] + rest;
        FaultyEndReads(rest, value);
      } else {
        CutEnds(cs, rest);
        assert CharsText(cs, true) + ([0x22] + rest) == [0x22] + Remainder(cs, rest, 0);
        FaultyEndReads(Remainder(cs, rest, 0), value);
      }
    } else {
      var tail := CharsText(cs[1..], true) + ([0x22] + rest);
      assert !IsCut(cs, rest, 0);
      FirstIsNoCut(cs, rest);
      FaultyCharReads(cs[0], tail, value);
      EndBehind(cs, rest, n);
      FaultyStringReads(cs[1..], rest, value + Means(cs[0]), n - 1);
      assert CharsText(cs, true) + ([0x22] + rest) == CharText(cs[0], true) + tail;
      assert cs[..n][1..] == cs[1..][..n - 1];
      assert value + Means(cs[0]) + AllMean(cs[1..][..n - 1]) == value + AllMean(cs[..n]);
      assert n < |cs| ==> cs[1..][n..] == cs[n + 1..];
    }
  }

  lemma CutEnds(cs: seq<Char>, rest: seq<byte>)
    requires AreChars(cs) && cs != [] && IsCut(cs, rest, 0)
    ensures Ends(Remainder(cs, rest, 0)) && CharText(cs[0], true) == [0x22]
  {
  }

  lemma EndBehind(cs: seq<Char>, rest: seq<byte>, n: nat)
    requires AreChars(cs) && cs != [] && 0 < n && IsEnd(cs, rest, n)
    ensures IsEnd(cs[1..], rest, n - 1)
  {
    hide IsCut;
    forall k: nat ensures IsCut(cs[1..], rest, k) <==> IsCut(cs, rest, k + 1) {
      CutBehind(cs, rest, k);
    }
  }

  lemma FaultyEndReads(rest: seq<byte>, value: seq<Unit>)
    requires Ends(rest)
    ensures LenientString([0x22] + rest, value) == [Literal(value)] + Lenient(rest)
  {
    EndsIffCloses(rest);
    assert ([0x22] + rest)[1..] == rest;
  }

  lemma {:induction false} MeansMore(cs: seq<Char>, n: nat)
    requires AreChars(cs) && n < |cs|
    ensures AreChars(cs[..n]) && |AllMean(cs[..n])| < |AllMean(cs)|
    decreases |cs|
  {
    hide Means;
    TailsAreChars(cs, n);
    if n > 0 {
      MeansMore(cs[1..], n - 1);
      assert cs[..n][1..] == cs[1..][..n - 1];
    }
  }

  lemma QuotedReads(chars: seq<Char>, rest: seq<byte>, n: nat)
    requires AreChars(chars) && Ends(rest) && IsEnd(chars, rest, n)
    ensures AreChars(chars[..n])
    ensures Lenient(PartText(Quoted(chars), true) + rest) == [Literal(AllMean(chars[..n]))] + Lenient(Remainder(chars, rest, n))
  {
    hide CharsText, LenientString, IsCut, AllMean, Ends, Remainder;
    FaultyStringReads(chars, rest, [], n);
    var s := CharsText(chars, true) + ([0x22] + rest);
    assert [] + AllMean(chars[..n]) == AllMean(chars[..n]);
    assert PartText(Quoted(chars), true) + rest == [0x22] + s;
    assert ([0x22] + s)[1..] == s;
  }

  /** A misread text does not mean what it should. */
  lemma {:induction false} MisreadMeansElse(parts: seq<Part>)
    requires AreParts(parts) && Followed(parts, true) && IsMisread(parts)
    ensures Lenient(PartsText(parts, true)) != Tokens(parts)
    decreases |parts|
  {
    hide Lenient, PartText, AllMean, IsCut, Ends, Gaps;
    SomePart(parts);
    var rest := parts[1..];
    CutsBehind(parts);
    var text := PartsText(rest, true);
    match parts[0]
    case Marks(bytes) =>
      hide IsMisread;
      MisreadMeansElse(rest);
      MarksAreThemselves(bytes);
      GapReads(bytes, text);
      Cancels(Gaps(bytes), Lenient(text), Tokens(rest));
    case Quoted(chars) =>
      var n := SomeEnd(chars, text, 0);
      QuotedReads(chars, text, n);
      TailsAreChars(chars, n);
      if n < |chars| {
        MeansMore(chars, n);
        HeadsDiffer(AllMean(chars[..n]), AllMean(chars), Lenient(Remainder(chars, text, n)), Tokens(rest));
      } else {
        NoCutAtAll(chars, text);
        hide IsMisread;
        MisreadMeansElse(rest);
        Cancels([Literal(AllMean(chars))], Lenient(text), Tokens(rest));
        assert chars[..n] == chars;
      }
  }

  lemma NoCutAtAll(cs: seq<Char>, rest: seq<byte>)
    requires AreChars(cs) && IsEnd(cs, rest, |cs|)
    ensures forall k: nat :: !IsCut(cs, rest, k)
  {
  }

  lemma SomePart(parts: seq<Part>)
    requires AreParts(parts) && IsMisread(parts)
    ensures parts != []
  {
  }

  lemma Cancels(a: seq<Token>, b: seq<Token>, c: seq<Token>)
    ensures a + b == a + c <==> b == c
  {
    assert (a + b)[|a|..] == b && (a + c)[|a|..] == c;
  }

  lemma HeadsDiffer(v: seq<Unit>, w: seq<Unit>, a: seq<Token>, b: seq<Token>)
    requires |v| < |w|
    ensures [Literal(v)] + a != [Literal(w)] + b
  {
    assert ([Literal(v)] + a)[0] == Literal(v) && ([Literal(w)] + b)[0] == Literal(w);
  }

  // ---------------------------------------------------------------- cut values

  lemma {:induction false} MeansConcat(a: seq<Char>, b: seq<Char>)
    requires AreChars(a) && AreChars(b)
    ensures AreChars(a + b) && AllMean(a + b) == AllMean(a) + AllMean(b)
    decreases |a|
  {
    hide Means, IsChar;
    if a == [] {
      assert a + b == b;
    } else {
      TailsAreChars(a, 1);
      MeansConcat(a[1..], b);
      assert (a + b)[1..] == a[1..] + b;
    }
  }

  /** The value kept of a string is a prefix of the one it should have, and all of it unless a bare quote
      has structure behind it. */
  lemma CutValueIsAPrefix(cs: seq<Char>, rest: seq<byte>) returns (n: nat)
    requires AreChars(cs) && Ends(rest)
    ensures IsEnd(cs, rest, n) && AreChars(cs[..n]) && AllMean(cs[..n]) <= AllMean(cs)
    ensures Lenient(PartText(Quoted(cs), true) + rest) == [Literal(AllMean(cs[..n]))] + Lenient(Remainder(cs, rest, n))
  {
    hide PartText, IsCut, AllMean, Remainder, Lenient, Ends;
    n := SomeEnd(cs, rest, 0);
    QuotedReads(cs, rest, n);
    TailsAreChars(cs, n);
    MeansConcat(cs[..n], cs[n..]);
    assert cs[..n] + cs[n..] == cs;
  }

  /** A value cut at its i-th quote keeps i - 1 of them, so the odd-quote check sees the cut exactly when i
      is even. */
  lemma CutSeenWhenEven(cs: seq<Char>, rest: seq<byte>, n: nat)
    requires AreChars(cs) && IsCut(cs, rest, n)
    ensures AreChars(cs[..n]) && AreChars(cs[..n + 1])
    ensures var i := multiset(AllMean(cs[..n + 1]))[Raw(0x22)];
            && multiset(AllMean(cs[..n]))[Raw(0x22)] + 1 == i
            && (HasOddQuotes(AllMean(cs[..n])) <==> i % 2 == 0)
  {
    hide Quotes, AllMean;
    TailsAreChars(cs, n);
    TailsAreChars(cs, n + 1);
    CutMeans(cs, rest, n);
    QuotesAreCounted(AllMean(cs[..n]));
  }

  lemma CutMeans(cs: seq<Char>, rest: seq<byte>, n: nat)
    requires AreChars(cs) && IsCut(cs, rest, n) && AreChars(cs[..n]) && AreChars(cs[..n + 1])
    ensures AllMean(cs[..n + 1]) == AllMean(cs[..n]) + [Raw(0x22)]
  {
    hide CharsText, Ends;
    assert [cs[n]][1..] == [];
    assert Means(cs[n]) + [] == [Raw(0x22)];
    MeansConcat(cs[..n], [cs[n]]);
    assert cs[..n] + [cs[n]] == cs[..n + 1];
  }

  /** The batch is refused for a field other than the j-th of the k-th entry. */
  predicate RefusedForAnother(entries: seq<Entry>, k: int, j: int) {
    exists i, m :: 0 <= i < |entries| && 0 <= m < |TEXT_FIELDS| && (i != k || m != j) && IsSuspect(entries[i], TEXT_FIELDS[m])
  }

  /** A batch with a text cut at its i-th quote is refused exactly when i is even or another field has an
      odd number of quotes. */
  lemma CutIsRefusedIff(cs: seq<Char>, rest: seq<byte>, n: nat, entries: seq<Entry>, k: nat, j: nat)
    requires AreChars(cs) && IsCut(cs, rest, n) && AreChars(cs[..n]) && AreChars(cs[..n + 1])
    requires k < |entries| && j < |TEXT_FIELDS|
    requires var e, f := entries[k], TEXT_FIELDS[j];
             e.Some? && f in e.value && e.value[f] == Chars(AllMean(cs[..n]))
    ensures Refused(entries) <==>
            multiset(AllMean(cs[..n + 1]))[Raw(0x22)] % 2 == 0 || RefusedForAnother(entries, k, j)
  {
    CutSeenWhenEven(cs, rest, n);
    hide AllMean, IsCut;
    var even := multiset(AllMean(cs[..n + 1]))[Raw(0x22)] % 2 == 0;
    assert IsSuspect(entries[k], TEXT_FIELDS[j]) <==> even;
    if Refused(entries) {
      var i, m :| 0 <= i < |entries| && 0 <= m < |TEXT_FIELDS| && IsSuspect(entries[i], TEXT_FIELDS[m]);
      assert (i == k && m == j) || RefusedForAnother(entries, k, j);
    }
  }

  // ---------------------------------------------------------------- lone backslashes

  /** The only faults are backslashes that were not doubled. */
  predicate OnlyLone(cs: seq<Char>) {
    forall k :: 0 <= k < |cs| ==> cs[k] != Quote(true) && !cs[k].Control?
  }

  predicate OnlyLoneIn(parts: seq<Part>) {
    forall k :: 0 <= k < |parts| ==> parts[k].Quoted? ==> OnlyLone(parts[k].chars)
  }

  lemma LeadStays(b: byte, rest: seq<byte>)
    requires IsShort(b) || b == 0x22 || b == 0x75
    ensures LoneBackslashes.EscapeString([0x5C, b] + rest) == [0x5C, b] + LoneBackslashes.EscapeString(rest)
  {
    var s := [0x5C, b] + rest;
    assert s[..2] == [0x5C, b] && s[2..] == rest;
  }

  lemma OtherStays(b: byte, rest: seq<byte>)
    requires b != 0x22 && b != 0x5C
    ensures LoneBackslashes.EscapeString([b] + rest) == [b] + LoneBackslashes.EscapeString(rest)
  {
    assert ([b] + rest)[1..] == rest;
  }

  lemma DigitsStay(p: Digit, q: Digit, r: Digit, s: Digit, rest: seq<byte>)
    requires IsDigit(p) && IsDigit(q) && IsDigit(r) && IsDigit(s)
    ensures LoneBackslashes.EscapeString(HexText(p, q, r, s) + rest) == HexText(p, q, r, s) + LoneBackslashes.EscapeString(rest)
  {
    hide LoneBackslashes.EscapeString;
    var a, b, c, d := DigitByte(p), DigitByte(q), DigitByte(r), DigitByte(s);
    OtherStays(d, rest);
    OtherStays(c, [d] + rest);
    OtherStays(b, [c] + ([d] + rest));
    OtherStays(a, [b] + ([c] + ([d] + rest)));
    var tail := [a] + ([b] + ([c] + ([d] + rest)));
    LeadStays(0x75, tail);
    assert HexText(p, q, r, s) + rest == [0x5C, 0x75] + tail;
  }

  lemma LoneIsEscaped(b: byte, rest: seq<byte>)
    requires IsChar(Lone(b))
    ensures LoneBackslashes.EscapeString([0x5C, b] + rest) == [0x5C, 0x5C, b] + LoneBackslashes.EscapeString(rest)
  {
    var s := [0x5C, b] + rest;
    assert s[1..] == [b] + rest;
    OtherStays(b, rest);
  }

  lemma CharIsEscaped(c: Char, rest: seq<byte>)
    requires IsChar(c) && c != Quote(true) && !c.Control?
    ensures LoneBackslashes.EscapeString(CharText(c, true) + rest) == CharText(c, false) + LoneBackslashes.EscapeString(rest)
  {
    hide LoneBackslashes.EscapeString;
    match c
    case Byte(b) => OtherStays(b, rest);
    case Short(letter) => LeadStays(letter, rest);
    case Hex(p, q, r, s) => DigitsStay(p, q, r, s, rest);
    case Quote(_) => LeadStays(0x22, rest);
    case Lone(b) => LoneIsEscaped(b, rest);
  }

  lemma {:induction false} StringIsEscaped(cs: seq<Char>, rest: seq<byte>)
    requires AreChars(cs) && OnlyLone(cs)
    ensures LoneBackslashes.EscapeString(CharsText(cs, true) + ([0x22] + rest))
            == CharsText(cs, false) + [0x22] + LoneBackslashes.Escape(rest)
    decreases |cs|
  {
    hide CharText;
    if cs == [] {
      assert CharsText(cs, true) + ([0x22] + rest) == [0x22] + rest;
      assert ([0x22] + rest)[1..] == rest;
      assert CharsText(cs, false) + [0x22] == [0x22];
    } else {
      hide LoneBackslashes.EscapeString, LoneBackslashes.Escape;
      var tail := CharsText(cs[1..], true) + ([0x22] + rest);
      CharIsEscaped(cs[0], tail);
      StringIsEscaped(cs[1..], rest);
      assert CharsText(cs, true) + ([0x22] + rest) == CharText(cs[0], true) + tail;
    }
  }

  lemma {:induction false} MarksAreEscaped(bytes: seq<byte>, rest: seq<byte>)
    requires 0x22 !in bytes
    ensures LoneBackslashes.Escape(bytes + rest) == bytes + LoneBackslashes.Escape(rest)
    decreases |bytes|
  {
    if bytes == [] {
      assert bytes + rest == rest;
    } else {
      MarksAreEscaped(bytes[1..], rest);
      assert bytes[0] != 0x22 && (bytes + rest)[1..] == bytes[1..] + rest;
    }
  }

  lemma QuotedIsEscaped(chars: seq<Char>, rest: seq<byte>)
    requires AreChars(chars) && OnlyLone(chars)
    ensures LoneBackslashes.Escape(PartText(Quoted(chars), true) + rest)
            == PartText(Quoted(chars), false) + LoneBackslashes.Escape(rest)
  {
    hide CharsText, LoneBackslashes.EscapeString;
    StringIsEscaped(chars, rest);
    var s := CharsText(chars, true) + ([0x22] + rest);
    assert PartText(Quoted(chars), true) + rest == [0x22] + s;
    assert ([0x22] + s)[1..] == s;
  }

  /** Of a JSON text whose only faults are undoubled backslashes, the escaping makes the text as it should be
      written; a text without faults stays. */
  lemma {:induction false} LoneBackslashesAreDoubled(parts: seq<Part>)
    requires AreParts(parts) && OnlyLoneIn(parts)
    ensures LoneBackslashes.Escape(PartsText(parts, true)) == PartsText(parts, false)
    decreases |parts|
  {
    hide LoneBackslashes.Escape, PartText, OnlyLone;
    if parts == [] {
      NothingIsEscaped();
    } else {
      TailsAreParts(parts, 1);
      LoneBackslashesAreDoubled(parts[1..]);
      assert IsPart(parts[0]);
      match parts[0] {
        case Marks(bytes) =>
          MarksAreEscaped(bytes, PartsText(parts[1..], true));
          MarksAreThemselves(bytes);
        case Quoted(chars) => QuotedIsEscaped(chars, PartsText(parts[1..], true));
      }
    }
  }

  lemma NothingIsEscaped()
    ensures LoneBackslashes.Escape([]) == []
  {
  }

  // ---------------------------------------------------------------- the theorems

  /** Every JSON text without faults, in any spacing, is left alone. */
  lemma SoundTextStays(front: seq<byte>, v: Json, back: seq<byte>)
    requires AreBlank(front) && IsJson(v) && AreBlank(back) && Faults(Document(front, v, back)) == 0
    ensures AreParts(Document(front, v, back))
    ensures var text := PartsText(Document(front, v, back), false);
            Repair(text) == Repaired(text, 0)
  {
    hide *;
    var d := Document(front, v, back);
    DocumentIsFollowed(front, v, back, true);
    NoFaults(d);
    SoundIsNotMisread(d);
    PartsAreRepaired(d);
  }

  lemma {:induction false} NoFaultsInside(cs: seq<Char>)
    requires AreChars(cs) && FaultsIn(cs) == 0
    ensures CharsText(cs, true) == CharsText(cs, false) && forall k :: 0 <= k < |cs| ==> cs[k] != Quote(true)
    decreases |cs|
  {
    if cs != [] {
      NoFaultsInside(cs[1..]);
      assert forall k :: 1 <= k < |cs| ==> cs[k] == cs[1..][k - 1];
    }
  }

  lemma {:induction false} NoFaults(parts: seq<Part>)
    requires AreParts(parts) && Faults(parts) == 0
    ensures PartsText(parts, true) == PartsText(parts, false)
    decreases |parts|
  {
    hide CharsText;
    if parts != [] {
      TailsAreParts(parts, 1);
      NoFaults(parts[1..]);
      assert IsPart(parts[0]);
      if parts[0].Quoted? {
        NoFaultsInside(parts[0].chars);
      }
    }
  }

  lemma {:induction false} SoundIsNotMisread(parts: seq<Part>)
    requires AreParts(parts) && Faults(parts) == 0
    ensures !IsMisread(parts)
    decreases |parts|
  {
    hide CharsText, PartsText, Ends;
    if parts != [] {
      CutsBehind(parts);
      SoundIsNotMisread(parts[1..]);
      hide IsMisread;
      if parts[0].Quoted? {
        NoFaultsInside(parts[0].chars);
      }
    }
  }

  /** Of a JSON text with any of the faults in its strings, the repair makes the text as it should be
      written, and counts them, exactly when no bare quote has structure behind it; otherwise what it makes
      does not mean the same. */
  lemma RepairRestoresTheText(front: seq<byte>, v: Json, back: seq<byte>)
    requires AreBlank(front) && IsJson(v) && AreBlank(back)
    ensures AreParts(Document(front, v, back))
    ensures var d := Document(front, v, back);
            var r := Repair(PartsText(d, true));
            && (Strict(r.text) == Strict(PartsText(d, false)) <==> !IsMisread(d))
            && (r == Repaired(PartsText(d, false), Faults(d)) <==> !IsMisread(d))
  {
    hide *;
    var d := Document(front, v, back);
    DocumentIsFollowed(front, v, back, true);
    PrintedMeans(d);
    StrictReadsRepaired(PartsText(d, true));
    if IsMisread(d) {
      MisreadMeansElse(d);
    } else {
      PartsAreRepaired(d);
    }
  }
}
