/** The class file format of chapter 4 of the Java Virtual Machine
    Specification, from its tables alone: where the entries of a constant pool
    and the items after it lie. Nothing here is shared with the linker's own
    reading, which is proved against it. */
module ClassGrammar {
  import opened Bytes

  // ---- section 4.4: the constant pool ------------------------------------

  /** The widths of the items after the tag. A `Utf8` has its length and its
      bytes, and stands apart. */
  function ItemWidths(tag: byte): Option<seq<nat>> {
    match tag
    case 3 => Some([4])       // Integer: bytes
    case 4 => Some([4])       // Float: bytes
    case 5 => Some([4, 4])    // Long: high_bytes, low_bytes
    case 6 => Some([4, 4])    // Double: high_bytes, low_bytes
    case 7 => Some([2])       // Class: name_index
    case 8 => Some([2])       // String: string_index
    case 9 => Some([2, 2])    // Fieldref: class_index, name_and_type_index
    case 10 => Some([2, 2])   // Methodref: the same
    case 11 => Some([2, 2])   // InterfaceMethodref: the same
    case 12 => Some([2, 2])   // NameAndType: name_index, descriptor_index
    case 15 => Some([1, 2])   // MethodHandle: reference_kind, reference_index
    case 16 => Some([2])      // MethodType: descriptor_index
    case 17 => Some([2, 2])   // Dynamic: bootstrap_method_attr_index, name_and_type_index
    case 18 => Some([2, 2])   // InvokeDynamic: the same
    case 19 => Some([2])      // Module: name_index
    case 20 => Some([2])      // Package: name_index
    case _ => None
  }

  function Sum(widths: seq<nat>): nat {
    if widths == [] then 0 else widths[0] + Sum(widths[1..])
  }

  /** How many indexes an entry takes: a `Long` or a `Double` two. */
  function Indexes(tag: byte): nat { if tag == 5 || tag == 6 then 2 else 1 }

  /** One entry: its index, where its tag is, where its data ends. */
  datatype Entry = Entry(index: nat, at: nat, end: nat)

  /** An entry with its data inside the file; `inPlace` when a `Utf8` has its
      bytes there, and not only its tag. */
  ghost predicate EntryLies(cls: seq<byte>, inPlace: bool, e: Entry) {
    && e.at < e.end <= |cls|
    && if cls[e.at] == 1 then
         if inPlace then Be16(cls, e.at + 1).Some? && e.end == e.at + 3 + Be16(cls, e.at + 1).value else e.end == e.at + 1
       else ItemWidths(cls[e.at]).Some? && e.end == e.at + 1 + Sum(ItemWidths(cls[e.at]).value)
  }

  /** Entries one after another from `at` up to `at'`, their indexes from `idx`
      on up to `idx'`, each below `count`. */
  ghost predicate Chain(
    cls: seq<byte>, inPlace: bool, count: nat, entries: seq<Entry>, idx: nat, at: nat, idx': nat, at': nat)
  {
    if entries == [] then idx' == idx && at' == at
    else
      var e := entries[0];
      && idx < count && e.index == idx && e.at == at && EntryLies(cls, inPlace, e)
      && Chain(cls, inPlace, count, entries[1..], idx + Indexes(cls[at]), e.end, idx', at')
  }

  /** Section 4.1: magic, versions, `constant_pool_count`. */
  ghost predicate Headed(cls: seq<byte>, count: nat) {
    |cls| >= 10 && cls[..4] == [0xca, 0xfe, 0xba, 0xbe] && Be16(cls, 8) == Some(count)
  }

  /** The pool is tiled by `entries`, with every index below `count` theirs. */
  ghost predicate PoolLies(cls: seq<byte>, inPlace: bool, count: nat, entries: seq<Entry>, end: nat) {
    Headed(cls, count) && exists idx :: idx >= count && Chain(cls, inPlace, count, entries, 1, 10, idx, end)
  }

  /** No entry can start at `at`: its tag is none of the table's. */
  predicate NoEntry(cls: seq<byte>, at: nat) {
    at < |cls| && cls[at] != 1 && ItemWidths(cls[at]).None?
  }
}
