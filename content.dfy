/**
 * What a content file looks like once it has been listed and parsed: the
 * loosely typed front-matter values, the file body, the directory listing,
 * and the small JavaScript value rules (`??`, truthiness, unchecked `as`
 * casts) that every loader applies to them.
 */
module Content {
  import opened Text

  /**
   * A front-matter value.  `Undefined` is what reading an absent key gives;
   * the other cases are what the YAML parser produces.  Numbers are integers.
   */
  datatype Value =
    | Undefined
    | Null
    | Str(s: string)
    | Num(n: int)
    | Bool(b: bool)
    | List(items: seq<Value>)
    | Obj(fields: map<string, Value>)

  /** The parsed metadata block of one file. */
  type FrontMatter = map<string, Value>

  /** `data[key]`, and also `data[key] as T`: the cast checks nothing. */
  function Get(data: FrontMatter, key: string): (v: Value)
    ensures key !in data ==> v == Undefined
    ensures key in data ==> v == data[key]
  {
    if key in data then data[key] else Undefined
  }

  /** The two values that `??` replaces. */
  predicate IsNullish(v: Value) {
    v.Undefined? || v.Null?
  }

  /** `v ?? fallback`. */
  function Coalesce(v: Value, fallback: Value): (r: Value)
    ensures IsNullish(v) ==> r == fallback
    ensures !IsNullish(v) ==> r == v
  {
    if IsNullish(v) then fallback else v
  }

  /** JavaScript truthiness; arrays and objects are truthy even when empty. */
  predicate Truthy(v: Value) {
    match v
    case Undefined => false
    case Null => false
    case Str(s) => s != []
    case Num(n) => n != 0
    case Bool(b) => b
    case List(_) => true
    case Obj(_) => true
  }

  /** The number a comparator subtracts; a value that is not a number ranks as 0. */
  function NumKey(v: Value): int {
    if v.Num? then v.n else 0
  }

  /** The text a comparator collates; a value that is not a string ranks as "". */
  function TextKey(v: Value): string {
    if v.Str? then v.s else ""
  }

  /**
   * `String(v)`, which is also the key `obj[v]` looks up: an array joins
   * its items' texts with "," (a null or undefined item as ""), and a plain
   * object gives "[object Object]".  A one-item array reads as its item.
   */
  function ToText(v: Value): (r: string)
    ensures v.Str? ==> r == v.s
    ensures v.List? && v.items == [] ==> r == []
    ensures v.List? && |v.items| == 1 && !IsNullish(v.items[0]) ==> r == ToText(v.items[0])
    decreases v
  {
    match v
    case Undefined => "undefined"
    case Null => "null"
    case Str(s) => s
    case Num(n) => Decimal(n)
    case Bool(b) => if b then "true" else "false"
    case List(items) =>
      Join(seq(|items|, i requires 0 <= i < |items| =>
        assert items[i] in items; if IsNullish(items[i]) then "" else ToText(items[i])), ",")
    case Obj(_) => "[object Object]"
  }

  /**
   * The text `Array.prototype.join` puts in for one element: "" for null
   * and undefined, and `String(v)` for anything else.
   */
  function JoinText(v: Value): (r: string)
    ensures IsNullish(v) ==> r == []
    ensures v.Str? ==> r == v.s
    ensures v.Num? ==> r == Decimal(v.n)
    ensures !IsNullish(v) ==> r == ToText(v)
  {
    if IsNullish(v) then "" else ToText(v)
  }

  /**
   * The names every plain object inherits from `Object.prototype`: looking
   * one up in a record literal finds that member (a function, or the
   * prototype itself for "__proto__") rather than `undefined`.
   */
  const InheritedNames: set<string> := {
    "constructor", "__proto__", "hasOwnProperty", "isPrototypeOf", "propertyIsEnumerable",
    "toLocaleString", "toString", "valueOf",
    "__defineGetter__", "__defineSetter__", "__lookupGetter__", "__lookupSetter__"
  }

  /** A JavaScript exception or I/O failure, carried by its message. */
  datatype Result<T> = Ok(value: T) | Fail(error: string)

  /** `null` / `undefined` versus a found value. */
  datatype Option<T> = None | Some(value: T)

  /** The message V8 gives when `v.member()` is called on a value without that method. */
  function MethodError(name: string, v: Value, member: string): string {
    if v.Undefined? then "Cannot read properties of undefined (reading '" + member + "')"
    else if v.Null? then "Cannot read properties of null (reading '" + member + "')"
    else name + "." + member + " is not a function"
  }

  /** What reading and parsing a file gives: metadata and body, or an error. */
  datatype FileBody = Parsed(data: FrontMatter, content: string) | Unreadable(message: string)

  /** One directory entry: its name, whether it is a regular file, and its body. */
  datatype Entry = Entry(name: string, isFile: bool, body: FileBody)

  /** A directory listing in the order the file system returns it, or the error. */
  datatype Directory = Listed(entries: seq<Entry>) | Unlistable(message: string)

  const ReadDirectoryError := "EISDIR: illegal operation on a directory, read"

  /** `fs.readFile` followed by the front-matter parser. */
  function ReadEntry(e: Entry): (r: Result<FileBody>)
    ensures r.Ok? <==> e.isFile && e.body.Parsed?
    ensures r.Ok? ==> r.value == e.body
  {
    if !e.isFile then Fail(ReadDirectoryError)
    else match e.body
      case Parsed(_, _) => Ok(e.body)
      case Unreadable(m) => Fail(m)
  }

  /** The names the loaders read: every entry whose name ends in ".mdx". */
  function MdxEntries(entries: seq<Entry>): (r: seq<Entry>)
    ensures |r| <= |entries|
    ensures forall e :: e in r <==> e in entries && EndsWith(e.name, ".mdx")
  {
    if entries == [] then []
    else (if EndsWith(entries[0].name, ".mdx") then [entries[0]] else []) + MdxEntries(entries[1..])
  }
}
