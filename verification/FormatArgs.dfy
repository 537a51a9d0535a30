/** Format arguments: packed type tags, the sentinel-terminated long form, and named arguments. */
module FormatArgs {
  import opened Widths

  const MAX_PACKED_ARGS: nat := 16

  // The order of the type tags is that of the source's enumeration.
  const NONE: nat := 0
  const NAMED_ARG: nat := 1
  const INT: nat := 2
  const UINT: nat := 3
  const LONG_LONG: nat := 4
  const ULONG_LONG: nat := 5
  const BOOL: nat := 6
  const CHAR: nat := 7
  const DOUBLE: nat := 8
  const LONG_DOUBLE: nat := 9
  const CSTRING: nat := 10
  const STRING: nat := 11
  const WSTRING: nat := 12
  const RAW_ADDRESS: nat := 13
  const CUSTOM: nat := 14
  const LAST_INTEGER_TYPE: nat := 7
  const LAST_NUMERIC_TYPE: nat := 9

  /** The value part of an argument; a named argument points at its name and the argument it stands for. */
  datatype Payload = Number(i: int) | Characters(s: string) | Named(name: string, arg: Arg) | Opaque(id: int)

  datatype Arg = Arg(tag: nat, payload: Payload)

  /** An argument as the caller passes it: its tag fits four bits, is not NONE, and says whether it is named. */
  predicate IsArg(a: Arg) {
    NONE < a.tag <= CUSTOM && (a.tag == NAMED_ARG <==> a.payload.Named?)
  }

  predicate AllArgs(args: seq<Arg>) {
    forall i :: 0 <= i < |args| ==> IsArg(args[i])
  }

  // ----- Packing -----

  /** `make_type`: the first tag in the low four bits, the others above, in 64-bit arithmetic. */
  function MakeType(args: seq<Arg>): nat
    requires AllArgs(args)
  {
    if |args| == 0 then 0 else (args[0].tag + 16 * MakeType(args[1..])) % UINT64
  }

  /** `type(index)`: shift right by four bits for each index, keep four bits. */
  function TagAt(types: nat, index: nat): nat {
    if index == 0 then types % 16 else TagAt(types / 16, index - 1)
  }

  function Pow16(k: nat): (p: nat)
    ensures p > 0
  {
    if k == 0 then 1 else 16 * Pow16(k - 1)
  }

  lemma {:induction false} ModDiv(x: nat, p: nat)
    requires p > 0
    ensures x % (16 * p) % 16 == x % 16
    ensures x % (16 * p) / 16 == x / 16 % p
  {
    var q, r := x / (16 * p), x % (16 * p);
    assert x == q * (16 * p) + r;
    assert q * (16 * p) == 16 * (q * p);
    assert x / 16 == q * p + r / 16;
    ModUnique(x / 16, p, q, r / 16);
  }

  lemma {:induction false} ModUnique(x: nat, p: nat, q: nat, r: nat)
    requires p > 0 && x == q * p + r && r < p
    ensures x % p == r
  {
    var q', r' := x / p, x % p;
    assert x == q' * p + r';
    if q' < q {
      MulLess(q', q, p);
    } else if q < q' {
      MulLess(q, q', p);
    }
  }

  lemma {:induction false} MulLess(a: nat, b: nat, p: nat)
    requires a < b
    ensures a * p + p <= b * p
  {
    assert b * p == (b - 1) * p + p;
    if a < b - 1 {
      MulLess(a, b - 1, p);
    }
  }

  /** Truncation to m four-bit digits keeps the digits below m. */
  lemma {:induction false} TruncationKeeps(x: nat, m: nat, j: nat)
    requires j < m
    ensures TagAt(x % Pow16(m), j) == TagAt(x, j)
  {
    ModDiv(x, Pow16(m - 1));
    if j > 0 {
      TruncationKeeps(x / 16, m - 1, j - 1);
    }
  }

  lemma {:induction false} Pow16At16()
    ensures Pow16(15) * 16 == UINT64 && Pow16(16) == UINT64
  {
    assert Pow16(3) == 4096;
    Pow16Three(3);
    Pow16Three(6);
    Pow16Three(9);
    Pow16Three(12);
  }

  lemma {:induction false} Pow16Three(k: nat)
    ensures Pow16(k + 3) == 4096 * Pow16(k)
  {
    assert Pow16(k + 3) == 16 * Pow16(k + 2) && Pow16(k + 2) == 16 * Pow16(k + 1);
  }

  /** Unpacking gives back the tag of each of the first sixteen arguments, and NONE beyond the last. */
  lemma {:induction false} TagsUnpack(args: seq<Arg>, i: nat)
    requires AllArgs(args) && i < MAX_PACKED_ARGS
    ensures TagAt(MakeType(args), i) == if i < |args| then args[i].tag else NONE
    decreases i
  {
    Pow16At16();
    if |args| == 0 {
      ZeroTags(i);
    } else {
      var x := args[0].tag + 16 * MakeType(args[1..]);
      assert MakeType(args) == x % Pow16(16);
      TruncationKeeps(x, 16, i);
      assert x % 16 == args[0].tag && x / 16 == MakeType(args[1..]);
      if i > 0 {
        TagsUnpack(args[1..], i - 1);
      }
    }
  }

  lemma {:induction false} ZeroTags(i: nat)
    ensures TagAt(0, i) == 0
  {
    if i > 0 {
      ZeroTags(i - 1);
    }
  }

  // ----- The list -----

  /** Values alone when there are fewer than sixteen arguments, arguments with tags otherwise. */
  datatype Storage = Values(values: seq<Payload>) | Args(args: seq<Arg>)

  datatype ArgList = ArgList(types: nat, storage: Storage)

  /** `ArgArray::SIZE`: room for a sentinel, or for one unused value. */
  function ArraySize(n: nat): nat { if n == 0 || n >= MAX_PACKED_ARGS then n + 1 else n }

  /** `set_types`: tags only when there are more than sixteen, the sentinel always. */
  function SetTypes(cells: seq<Arg>, args: seq<Arg>): (r: seq<Arg>)
    requires |cells| == |args| + 1
    ensures |r| == |cells|
  {
    var tagged := if |args| > MAX_PACKED_ARGS
                  then seq(|cells|, i requires 0 <= i < |cells| =>
                             if i < |args| then cells[i].(tag := args[i].tag) else cells[i])
                  else cells;
    tagged[|args| := tagged[|args|].(tag := NONE)]
  }

  /** `store_args` for arguments: the value part only. */
  function StoreArgs(cells: seq<Arg>, args: seq<Arg>): (r: seq<Arg>)
    requires |cells| >= |args|
    ensures |r| == |cells|
  {
    seq(|cells|, i requires 0 <= i < |cells| => if i < |args| then cells[i].(payload := args[i].payload) else cells[i])
  }

  function StoreValues(cells: seq<Payload>, args: seq<Arg>): (r: seq<Payload>)
    requires |cells| >= |args|
    ensures |r| == |cells|
  {
    seq(|cells|, i requires 0 <= i < |cells| => if i < |args| then args[i].payload else cells[i])
  }

  /** `make_arg_list`; `stack` is what the caller's array happens to hold before. */
  function MakeArgList(args: seq<Arg>, stack: seq<Arg>): ArgList
    requires AllArgs(args) && |stack| == ArraySize(|args|)
  {
    if |args| < MAX_PACKED_ARGS then
      ArgList(MakeType(args), Values(StoreValues(seq(|stack|, i requires 0 <= i < |stack| => stack[i].payload), args)))
    else
      ArgList(MakeType(args), Args(StoreArgs(SetTypes(stack, args), args)))
  }

  /** What a list made from `args` is known to hold, whatever was on the stack. */
  ghost predicate Represents(list: ArgList, args: seq<Arg>) {
    && AllArgs(args)
    && (forall i :: 0 <= i < MAX_PACKED_ARGS ==> TagAt(list.types, i) == if i < |args| then args[i].tag else NONE)
    && (match list.storage
        case Values(values) =>
          |args| < MAX_PACKED_ARGS && |values| >= |args| && forall i :: 0 <= i < |args| ==> values[i] == args[i].payload
        case Args(cells) =>
          && |args| >= MAX_PACKED_ARGS && |cells| == |args| + 1 && cells[|args|].tag == NONE
          && (forall i :: 0 <= i < |args| ==> cells[i].payload == args[i].payload)
          && (forall i :: MAX_PACKED_ARGS <= i < |args| ==> cells[i].tag == args[i].tag))
  }

  lemma {:induction false} MadeListRepresents(args: seq<Arg>, stack: seq<Arg>)
    requires AllArgs(args) && |stack| == ArraySize(|args|)
    ensures Represents(MakeArgList(args, stack), args)
  {
    forall i | 0 <= i < MAX_PACKED_ARGS
      ensures TagAt(MakeArgList(args, stack).types, i) == if i < |args| then args[i].tag else NONE
    {
      TagsUnpack(args, i);
    }
  }

  /** `operator[]`: the argument for an index below the number of arguments, NONE for any other, without
      ever reading past the sentinel. */
  method At(list: ArgList, index: nat, ghost args: seq<Arg>) returns (arg: Arg)
    requires Represents(list, args)
    ensures index < |args| ==> arg == args[index]
    ensures index >= |args| ==> arg.tag == NONE
  {
    var useValues := TagAt(list.types, MAX_PACKED_ARGS - 1) == NONE;
    if index < MAX_PACKED_ARGS {
      var tag := TagAt(list.types, index);
      arg := Arg(tag, Opaque(0));
      if tag != NONE {
        arg := Arg(tag, if useValues then list.storage.values[index] else list.storage.args[index].payload);
      }
      return;
    }
    if useValues {
      return Arg(NONE, Opaque(0));
    }
    var i := MAX_PACKED_ARGS;
    while i <= index
      invariant MAX_PACKED_ARGS <= i <= index + 1 && i <= |args|
    {
      if list.storage.args[i].tag == NONE {
        return list.storage.args[i];
      }
      i := i + 1;
    }
    return list.storage.args[index];
  }

  // ----- Named arguments -----

  /** Names among the first k arguments, each with the argument of its first occurrence. */
  function FirstNamed(args: seq<Arg>, k: nat): (m: map<string, Arg>)
    requires k <= |args|
  {
    if k == 0 then map[]
    else
      var m, p := FirstNamed(args, k - 1), args[k - 1].payload;
      if args[k - 1].tag == NAMED_ARG && p.Named? && p.name !in m then m[p.name := p.arg] else m
  }

  ghost predicate NamedAt(args: seq<Arg>, i: nat, name: string)
    requires i < |args|
  {
    args[i].tag == NAMED_ARG && args[i].payload.Named? && args[i].payload.name == name
  }

  /** The map really holds first occurrences. */
  lemma {:induction false} FirstNamedIsFirst(args: seq<Arg>, k: nat, name: string)
    requires k <= |args|
    ensures name in FirstNamed(args, k) <==> exists i :: 0 <= i < k && NamedAt(args, i, name)
    ensures name in FirstNamed(args, k) ==>
      exists i :: 0 <= i < k && NamedAt(args, i, name) && args[i].payload.arg == FirstNamed(args, k)[name]
                  && forall j :: 0 <= j < i ==> !NamedAt(args, j, name)
  {
    if k > 0 {
      FirstNamedIsFirst(args, k - 1, name);
      var m := FirstNamed(args, k - 1);
      if NamedAt(args, k - 1, name) && name !in m {
        assert forall j :: 0 <= j < k - 1 ==> !NamedAt(args, j, name);
        assert FirstNamed(args, k)[name] == args[k - 1].payload.arg;
      } else if name in m {
        var i :| 0 <= i < k - 1 && NamedAt(args, i, name) && args[i].payload.arg == m[name]
                 && forall j :: 0 <= j < i ==> !NamedAt(args, j, name);
        assert FirstNamed(args, k)[name] == m[name];
      }
    }
  }

  class ArgMap {
    var entries: map<string, Arg>

    constructor ()
      ensures entries == map[]
    {
      entries := map[];
    }

    /** `map_.insert`: an existing entry stays. */
    method Insert(p: Payload)
      modifies this
      ensures entries == if p.Named? && p.name !in old(entries) then old(entries)[p.name := p.arg] else old(entries)
    {
      if p.Named? && p.name !in entries {
        entries := entries[p.name := p.arg];
      }
    }

    /** Fill the map once; the loops end at the first NONE. */
    method Init(list: ArgList, ghost args: seq<Arg>)
      requires Represents(list, args)
      modifies this
      ensures entries == if old(entries) == map[] then FirstNamed(args, |args|) else old(entries)
    {
      if entries != map[] {
        return;
      }
      var useValues := TagAt(list.types, MAX_PACKED_ARGS - 1) == NONE;
      var i := 0;
      if useValues {
        while true
          invariant 0 <= i <= |args| && entries == FirstNamed(args, i)
          decreases |args| - i
        {
          var tag := TagAt(list.types, i);
          if tag == NONE {
            return;
          }
          if tag == NAMED_ARG {
            Insert(list.storage.values[i]);
          }
          i := i + 1;
        }
      }
      while i != MAX_PACKED_ARGS
        invariant 0 <= i <= MAX_PACKED_ARGS && entries == FirstNamed(args, i)
      {
        if TagAt(list.types, i) == NAMED_ARG {
          Insert(list.storage.args[i].payload);
        }
        i := i + 1;
      }
      while true
        invariant MAX_PACKED_ARGS <= i <= |args| && entries == FirstNamed(args, i)
        decreases |args| - i
      {
        var a := list.storage.args[i];
        if a.tag == NONE {
          return;
        }
        if a.tag == NAMED_ARG {
          Insert(a.payload);
        }
        i := i + 1;
      }
    }
  }
}
