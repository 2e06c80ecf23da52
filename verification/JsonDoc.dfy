/** JSON documents as RFC 8259 writes them: values with the white space of one particular text,
    their printed form, and member and index lookup defined on the value alone. */
module JsonDoc {
  import opened Wrappers
  import Json

  /** `-`, digits, `.digits`, `e` sign digits; an absent part is empty. */
  datatype Number = Number(minus: bool, whole: string, frac: string, mark: string, exp: string)

  datatype Value =
    | Literal(word: string)
    | Numeral(number: Number)
    | Text(raw: seq<Unit>)
    | Array(inner: string, items: Items)
    | Object(inner: string, members: Members)

  /** One unit of a string: a plain character, or a backslash and the character after it. */
  datatype Unit = Plain(c: char) | Escape(c: char)

  datatype Items = NoItems | Items(before: string, value: Value, after: string, rest: Items)

  datatype Members =
    | NoMembers
    | Members(before: string, key: seq<Unit>, beforeColon: string, afterColon: string, value: Value, after: string,
              rest: Members)

  datatype Document = Document(before: string, value: Value, after: string)

  datatype Segment = Member(name: string) | Index(n: nat)

  predicate BlankText(s: string) {
    forall k :: 0 <= k < |s| ==> s[k] in {' ', '\t', '\n', '\r'}
  }

  predicate DigitText(s: string) {
    forall k :: 0 <= k < |s| ==> '0' <= s[k] <= '9'
  }

  /** The number that digits spell, after the digits of `value`. */
  function DigitsValue(s: string, value: nat): (v: nat)
    requires DigitText(s)
    ensures v >= value
  {
    if s == "" then value else DigitsValue(s[1..], value * 10 + (s[0] as int - '0' as int))
  }

  /** RFC 8259 section 6. */
  predicate NumberText(n: Number) {
    && n.whole != "" && DigitText(n.whole) && DigitText(n.frac) && DigitText(n.exp)
    && n.mark in {"", "e", "E", "e+", "E+", "e-", "E-"} && (n.mark == "" <==> n.exp == "")
  }

  /** No further digit of an exponent is read once it has reached 308. */
  predicate ShortExponent(n: Number)
    requires DigitText(n.exp)
  {
    n.exp == "" || DigitsValue(n.exp[..|n.exp| - 1], 0) < Json.MAX_EXPONENT
  }

  predicate ValidNumber(n: Number) { NumberText(n) && ShortExponent(n) }

  /** RFC 8259 section 7: control characters, quotes and backslashes do not stand for themselves. */
  predicate ValidUnit(u: Unit) {
    match u
    case Plain(c) => c >= ' ' && c != '"' && c != '\\'
    case Escape(c) => c in {'"', '\\', '/', 'b', 'f', 'n', 'r', 't', 'u'}
  }

  predicate ValidRaw(raw: seq<Unit>) {
    forall k :: 0 <= k < |raw| ==> ValidUnit(raw[k])
  }

  /** A key that a path can tell from its own punctuation. */
  predicate PlainKey(raw: seq<Unit>) {
    Plain('.') !in raw && Plain('[') !in raw
  }

  predicate Valid(v: Value)
    decreases v
  {
    match v
    case Literal(w) => w in {"true", "false", "null"}
    case Numeral(n) => ValidNumber(n)
    case Text(raw) => ValidRaw(raw)
    case Array(inner, items) => BlankText(inner) && ValidItems(items)
    case Object(inner, members) => BlankText(inner) && ValidMembers(members)
  }

  predicate ValidItems(items: Items)
    decreases items
  {
    items.Items? ==>
      BlankText(items.before) && Valid(items.value) && BlankText(items.after) && ValidItems(items.rest)
  }

  predicate ValidMembers(ms: Members)
    decreases ms
  {
    ms.Members? ==>
      BlankText(ms.before) && ValidRaw(ms.key) && BlankText(ms.beforeColon) &&
      BlankText(ms.afterColon) && Valid(ms.value) && BlankText(ms.after) && ValidMembers(ms.rest)
  }

  /** No key in it has a dot or an opening bracket. */
  predicate PlainKeys(v: Value)
    decreases v
  {
    match v
    case Array(_, items) => PlainItems(items)
    case Object(_, members) => PlainMembers(members)
    case _ => true
  }

  predicate PlainItems(items: Items)
    decreases items
  {
    items.Items? ==> PlainKeys(items.value) && PlainItems(items.rest)
  }

  predicate PlainMembers(ms: Members)
    decreases ms
  {
    ms.Members? ==> PlainKey(ms.key) && PlainKeys(ms.value) && PlainMembers(ms.rest)
  }

  function Max(a: nat, b: nat): nat { if a < b then b else a }

  function Height(v: Value): nat
    decreases v
  {
    match v
    case Array(_, items) => 1 + HeightItems(items)
    case Object(_, members) => 1 + HeightMembers(members)
    case _ => 0
  }

  function HeightItems(items: Items): nat
    decreases items
  {
    if items.NoItems? then 0 else Max(Height(items.value), HeightItems(items.rest))
  }

  function HeightMembers(ms: Members): nat
    decreases ms
  {
    if ms.NoMembers? then 0 else Max(Height(ms.value), HeightMembers(ms.rest))
  }

  // ----- the printed form

  function PrintNumber(n: Number): string {
    (if n.minus then "-" else "") + (n.whole + ((if n.frac == "" then "" else "." + n.frac) + (n.mark + n.exp)))
  }

  function PrintUnit(u: Unit): string {
    match u
    case Plain(c) => [c]
    case Escape(c) => ['\\', c]
  }

  function PrintRaw(raw: seq<Unit>): string {
    if raw == [] then "" else PrintUnit(raw[0]) + PrintRaw(raw[1..])
  }

  function Quoted(raw: seq<Unit>): string {
    "\"" + (PrintRaw(raw) + "\"")
  }

  /** The text between the brackets of a container. */
  function Body(v: Value): string
    requires v.Array? || v.Object?
    decreases v, 0
  {
    match v
    case Array(inner, items) => if items.NoItems? then inner else PrintItems(items)
    case Object(inner, members) => if members.NoMembers? then inner else PrintMembers(members)
  }

  function Print(v: Value): string
    decreases v, 1
  {
    match v
    case Literal(w) => w
    case Numeral(n) => PrintNumber(n)
    case Text(raw) => Quoted(raw)
    case Array(_, _) => "[" + (Body(v) + "]")
    case Object(_, _) => "{" + (Body(v) + "}")
  }

  function PrintItems(items: Items): string
    decreases items, 0
  {
    if items.NoItems? then "" else items.before + (Print(items.value) + (items.after + MoreItems(items.rest)))
  }

  function MoreItems(items: Items): string
    decreases items, 1
  {
    if items.NoItems? then "" else "," + PrintItems(items)
  }

  /** Everything of a member up to its value. */
  function HeadText(ms: Members): string
    requires ms.Members?
  {
    ms.before + (Quoted(ms.key) + (ms.beforeColon + (":" + ms.afterColon)))
  }

  function PrintMembers(ms: Members): string
    decreases ms, 0
  {
    if ms.NoMembers? then ""
    else HeadText(ms) + (Print(ms.value) + (ms.after + MoreMembers(ms.rest)))
  }

  function MoreMembers(ms: Members): string
    decreases ms, 1
  {
    if ms.NoMembers? then "" else "," + PrintMembers(ms)
  }

  function PrintDocument(d: Document): string {
    d.before + (Print(d.value) + d.after)
  }

  predicate ValidDocument(d: Document) {
    BlankText(d.before) && Valid(d.value) && BlankText(d.after)
  }

  // ----- lookup

  function FindItem(items: Items, n: nat): Option<Value>
    decreases items
  {
    if items.NoItems? then None
    else if n == 0 then Some(items.value)
    else FindItem(items.rest, n - 1)
  }

  /** The first member named `name`. */
  function FindMember(ms: Members, name: string): Option<Value>
    decreases ms
  {
    if ms.NoMembers? then None
    else if PrintRaw(ms.key) == name then Some(ms.value)
    else FindMember(ms.rest, name)
  }

  function Child(v: Value, seg: Segment): Option<Value> {
    match seg
    case Member(name) => if v.Object? then FindMember(v.members, name) else None
    case Index(n) => if v.Array? then FindItem(v.items, n) else None
  }

  /** What a path means: one child after the other. */
  function Select(v: Value, path: seq<Segment>): Option<Value>
    decreases |path|
  {
    if path == [] then Some(v)
    else
      var u := Child(v, path[0]);
      if u.None? then None else Select(u.value, path[1..])
  }

  // ----- where the selected value stands in the printed text

  function ItemOffset(items: Items, n: nat): nat
    requires FindItem(items, n).Some?
    decreases items
  {
    if n == 0 then |items.before|
    else |items.before| + |Print(items.value)| + |items.after| + 1 + ItemOffset(items.rest, n - 1)
  }

  function MemberOffset(ms: Members, name: string): nat
    requires FindMember(ms, name).Some?
    decreases ms
  {
    if PrintRaw(ms.key) == name then |HeadText(ms)|
    else |HeadText(ms)| + |Print(ms.value)| + |ms.after| + 1 + MemberOffset(ms.rest, name)
  }

  function ChildOffset(v: Value, seg: Segment): nat
    requires Child(v, seg).Some?
  {
    match seg
    case Member(name) => 1 + MemberOffset(v.members, name)
    case Index(n) => 1 + ItemOffset(v.items, n)
  }

  function Offset(v: Value, path: seq<Segment>): nat
    requires Select(v, path).Some?
    decreases |path|
  {
    if path == [] then 0
    else ChildOffset(v, path[0]) + Offset(Child(v, path[0]).value, path[1..])
  }

  // ----- paths as text

  predicate ValidSegment(seg: Segment) {
    seg.Member? ==> forall k :: 0 <= k < |seg.name| ==> seg.name[k] !in {'\0', '.', '['}
  }

  predicate ValidPath(path: seq<Segment>) {
    forall k :: 0 <= k < |path| ==> ValidSegment(path[k])
  }

  /** No member name is empty. */
  predicate AllNamed(path: seq<Segment>) {
    forall k :: 0 <= k < |path| && path[k].Member? ==> path[k].name != ""
  }

  function DigitChar(d: nat): (c: char)
    requires d < 10
    ensures '0' <= c <= '9' && c as int == '0' as int + d
  {
    d as char + '0'
  }

  function Decimal(n: nat): (s: string)
    ensures s != "" && DigitText(s)
  {
    if n < 10 then [DigitChar(n)] else Decimal(n / 10) + [DigitChar(n % 10)]
  }

  function PrintSegment(seg: Segment): string {
    match seg
    case Member(name) => "." + name
    case Index(n) => "[" + Decimal(n) + "]"
  }

  function PrintSegments(path: seq<Segment>): string {
    if path == [] then "" else PrintSegment(path[0]) + PrintSegments(path[1..])
  }

  function PrintPath(path: seq<Segment>): string {
    "$" + PrintSegments(path)
  }

  /** Array indices only in the last place. */
  predicate IndexOnlyLast(path: seq<Segment>) {
    forall k :: 0 <= k < |path| - 1 ==> path[k].Member?
  }

  /** Member names only in the last place. */
  predicate MemberOnlyLast(path: seq<Segment>) {
    forall k :: 0 <= k < |path| - 1 ==> path[k].Index?
  }

  /** The keys on the way cannot be taken for more than one name. */
  predicate Tellable(v: Value, path: seq<Segment>) { PlainKeys(v) || MemberOnlyLast(path) }
}
