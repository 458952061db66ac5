// windows_tools/registry: get_value, get_values, get_keys and delete_sub_key over an abstract
// registry. The registry is one finite tree per architecture view, stored flat: every existing key
// (hive plus path components) maps to its ordered values and its ordered subkey names.
module Registry {
  import opened Wrappers

  /** Data of one value as winreg returns it: REG_SZ text, REG_DWORD/REG_QWORD integers,
      REG_BINARY bytes, REG_MULTI_SZ string lists. */
  datatype Value = Str(s: string) | Int(i: int) | Bytes(bytes: seq<nat>) | StrList(items: seq<string>)

  /** One value of a key, as EnumValue gives it; the unnamed (default) value has name "". */
  datatype NamedValue = NamedValue(name: string, data: Value, kind: int)

  /** One key: its values and the names of its subkeys, both in enumeration order. */
  datatype Node = Node(values: seq<NamedValue>, subkeys: seq<string>)

  datatype Hive = HKEY_CLASSES_ROOT | HKEY_CURRENT_USER | HKEY_LOCAL_MACHINE | HKEY_USERS | HKEY_CURRENT_CONFIG

  /** A key: its hive and the components of its backslash-separated path. */
  datatype KeyRef = KeyRef(hive: Hive, path: seq<string>)

  /** `key + '\\' + name` in the source. */
  function Child(k: KeyRef, name: string): KeyRef {
    KeyRef(k.hive, k.path + [name])
  }

  type Tree = map<KeyRef, Node>

  datatype View = View64 | View32

  /** The registry seen through KEY_WOW64_64KEY and KEY_WOW64_32KEY; `native64` says which of
      the two a plain access (arch 0) reaches, i.e. whether the process is 64-bit. */
  datatype RegState = RegState(view64: Tree, view32: Tree, native64: bool)

  /** The `arch` argument: 0, KEY_WOW64_64KEY (256), KEY_WOW64_32KEY (512), or both (768). */
  datatype Arch = Default | Key64 | Key32 | Both

  function ArchCode(a: Arch): int {
    match a
    case Default => 0
    case Key64 => 256
    case Key32 => 512
    case Both => 768
  }

  function ViewOf(reg: RegState, arch: Arch): View
    requires arch != Both
  {
    match arch
    case Key64 => View64
    case Key32 => View32
    case Default => if reg.native64 then View64 else View32
  }

  function TreeOf(reg: RegState, v: View): Tree {
    if v == View64 then reg.view64 else reg.view32
  }

  function OrEmpty<T>(r: Option<seq<T>>): seq<T> {
    if r.Some? then r.value else []
  }

  // ---------------------------------------------------------------- get_value

  /** QueryValueEx: the value called `name` among `vals`, None when there is none. */
  function FindValue(vals: seq<NamedValue>, name: string): (r: Option<Value>)
    ensures r.Some? <==> exists i :: 0 <= i < |vals| && vals[i].name == name
    ensures r.Some? ==> exists i :: 0 <= i < |vals| && vals[i].name == name && vals[i].data == r.value
  {
    if vals == [] then None
    else if vals[0].name == name then Some(vals[0].data)
    else
      var r := FindValue(vals[1..], name);
      assert forall i :: 1 <= i < |vals| ==> vals[i] == vals[1..][i - 1];
      r
  }

  /** Inner _get_value: None stands for the FileNotFoundError it raises (key or value missing). */
  function ValueIn(t: Tree, key: KeyRef, name: string): Option<Value> {
    if key in t then FindValue(t[key].values, name) else None
  }

  /** get_value as a function, for the modules that read the registry. */
  function LookupValue(reg: RegState, key: KeyRef, name: string, arch: Arch): Option<Value> {
    if arch == Both then
      var first := ValueIn(reg.view64, key, name);
      if first.Some? then first else ValueIn(reg.view32, key, name)
    else ValueIn(TreeOf(reg, ViewOf(reg, arch)), key, name)
  }

  /** get_value: with arch 768 the 64-bit view is tried, then the 32-bit one; the first lookup that
      succeeds is returned, and None (FileNotFoundError) only when both fail. */
  method GetValue(reg: RegState, key: KeyRef, name: string, arch: Arch) returns (r: Option<Value>)
    ensures r == LookupValue(reg, key, name, arch)
    ensures arch == Both && ValueIn(reg.view64, key, name).Some? ==> r == ValueIn(reg.view64, key, name)
    ensures arch == Both && ValueIn(reg.view64, key, name).None? ==> r == ValueIn(reg.view32, key, name)
    ensures arch == Both ==> (r.None? <==> ValueIn(reg.view64, key, name).None? && ValueIn(reg.view32, key, name).None?)
  {
    if arch == Both {
      var views := [View64, View32];
      assert views[0] == View64 && views[1] == View32;
      for n := 0 to |views|
        invariant forall j :: 0 <= j < n ==> ValueIn(TreeOf(reg, views[j]), key, name).None?
      {
        var attempt := ValueIn(TreeOf(reg, views[n]), key, name);
        if attempt.Some? {
          return attempt;
        }
      }
      assert ValueIn(TreeOf(reg, views[0]), key, name).None? && ValueIn(TreeOf(reg, views[1]), key, name).None?;
      return None;
    }
    r := ValueIn(TreeOf(reg, ViewOf(reg, arch)), key, name);
  }

  // ---------------------------------------------------------------- get_values

  /** The dict built for one subkey: each requested name the subkey has, with its data. */
  function Record(node: Node, names: seq<string>): map<string, Value> {
    map n | n in names && FindValue(node.values, n).Some? :: FindValue(node.values, n).value
  }

  predicate SubkeysPresent(t: Tree, key: KeyRef)
    requires key in t
  {
    forall i :: 0 <= i < |t[key].subkeys| ==> Child(key, t[key].subkeys[i]) in t
  }

  /** Inner _get_values: one record per subkey in enumeration order; None when the key, or one of
      the subkeys it lists, cannot be opened. */
  function ValuesIn(t: Tree, key: KeyRef, names: seq<string>): Option<seq<map<string, Value>>> {
    if key in t && SubkeysPresent(t, key) then
      var subs := t[key].subkeys;
      Some(seq(|subs|, i requires 0 <= i < |subs| && Child(key, subs[i]) in t => Record(t[Child(key, subs[i])], names)))
    else None
  }

  /** get_values as a function. With arch 768 it never fails: combined, both views' lists are
      concatenated (64-bit first); otherwise the first view that opens wins, else []. */
  function LookupValues(reg: RegState, key: KeyRef, names: seq<string>, arch: Arch, combine: bool)
    : Option<seq<map<string, Value>>>
  {
    if arch == Both then
      var r64 := ValuesIn(reg.view64, key, names);
      var r32 := ValuesIn(reg.view32, key, names);
      if combine then Some(OrEmpty(r64) + OrEmpty(r32))
      else if r64.Some? then r64
      else if r32.Some? then r32
      else Some([])
    else ValuesIn(TreeOf(reg, ViewOf(reg, arch)), key, names)
  }

  /** The inner loop of _get_values: the dict of one subkey, filled name by name. */
  method ReadRecord(node: Node, names: seq<string>) returns (values: map<string, Value>)
    ensures values == Record(node, names)
  {
    values := map[];
    for k := 0 to |names|
      invariant values == Record(node, names[..k])
    {
      var found := FindValue(node.values, names[k]);
      RecordSnoc(node, names[..k], names[k]);
      assert names[..k + 1] == names[..k] + [names[k]];
      if found.Some? {
        values := values[names[k] := found.value];
      }
    }
    assert names[..|names|] == names;
  }

  /** One more requested name adds its value, when the subkey has one. */
  lemma RecordSnoc(node: Node, names: seq<string>, n: string)
    ensures Record(node, names + [n])
            == if FindValue(node.values, n).Some? then Record(node, names)[n := FindValue(node.values, n).value]
               else Record(node, names)
  {
  }

  /** The loop of _get_values: for each subkey index, a dict filled name by name. */
  method ReadValues(t: Tree, key: KeyRef, names: seq<string>) returns (r: Option<seq<map<string, Value>>>)
    ensures r == ValuesIn(t, key, names)
    ensures r.Some? ==> |r.value| == |t[key].subkeys|
    ensures r.Some? ==> forall i, n :: 0 <= i < |r.value| && n in r.value[i] ==> n in names
  {
    if key !in t {
      return None;
    }
    var subs := t[key].subkeys;
    var output: seq<map<string, Value>> := [];
    for index := 0 to |subs|
      invariant |output| == index
      invariant forall i :: 0 <= i < index ==> Child(key, subs[i]) in t && output[i] == Record(t[Child(key, subs[i])], names)
    {
      var sub := Child(key, subs[index]);
      if sub !in t {
        assert !SubkeysPresent(t, key);
        assert ValuesIn(t, key, names) == None;
        return None;
      }
      var values := ReadRecord(t[sub], names);
      output := output + [values];
    }
    assert SubkeysPresent(t, key);
    ghost var spec := ValuesIn(t, key, names).value;
    assert |spec| == |output| && forall i :: 0 <= i < |subs| ==> spec[i] == output[i];
    assert spec == output;
    r := Some(output);
  }

  /** get_values: the arch-768 policy over the two views, accumulating `result` when combining. */
  method GetValues(reg: RegState, key: KeyRef, names: seq<string>, arch: Arch, combine: bool)
    returns (r: Option<seq<map<string, Value>>>)
    ensures r == LookupValues(reg, key, names, arch, combine)
    ensures arch == Both ==> r.Some?
    ensures arch == Both && combine ==>
      r.value == OrEmpty(ValuesIn(reg.view64, key, names)) + OrEmpty(ValuesIn(reg.view32, key, names))
    ensures arch == Both && !combine && ValuesIn(reg.view64, key, names).None? && ValuesIn(reg.view32, key, names).None?
      ==> r == Some([])
  {
    if arch == Both {
      var views := [View64, View32];
      var result: seq<map<string, Value>> := [];
      for n := 0 to |views|
        invariant combine ==>
          result == (if n == 0 then [] else OrEmpty(ValuesIn(reg.view64, key, names)))
                    + (if n == 2 then OrEmpty(ValuesIn(reg.view32, key, names)) else [])
        invariant !combine ==> result == [] && forall j :: 0 <= j < n ==> ValuesIn(TreeOf(reg, views[j]), key, names).None?
      {
        var attempt := ReadValues(TreeOf(reg, views[n]), key, names);
        if attempt.Some? {
          if combine {
            result := result + attempt.value;
          } else {
            return attempt;
          }
        }
      }
      assert views[0] == View64 && views[1] == View32;
      return Some(result);
    }
    r := ReadValues(TreeOf(reg, ViewOf(reg, arch)), key, names);
  }

  /** With arch 768 and combine, get_values returns the 64-bit view's records followed by the
      32-bit view's, a view where the key cannot be opened contributing none. */
  lemma ValuesCombined(reg: RegState, key: KeyRef, names: seq<string>)
    ensures LookupValues(reg, key, names, Both, true)
      == Some(OrEmpty(ValuesIn(reg.view64, key, names)) + OrEmpty(ValuesIn(reg.view32, key, names)))
  {
  }

  /** Each record holds exactly the requested names its subkey has, with the subkey's data:
      names a subkey lacks are left out rather than set to a default. */
  lemma RecordContents(node: Node, names: seq<string>, n: string)
    ensures n in Record(node, names) <==> n in names && FindValue(node.values, n).Some?
    ensures n in Record(node, names) ==> Record(node, names)[n] == FindValue(node.values, n).value
  {
  }

  // ---------------------------------------------------------------- get_keys

  /** What get_keys returns under one name: the key's own value list (under "") or a subkey's dict. */
  datatype Entry = ValueList(values: seq<NamedValue>) | SubKey(entries: map<string, Entry>)

  /** The values kept by _get_keys' first loop: all of them unless `filter` is a list, else those
      whose name is listed, in enumeration order. */
  function Filtered(vals: seq<NamedValue>, filter: Option<seq<string>>): (r: seq<NamedValue>)
    ensures |r| <= |vals|
  {
    if vals == [] then []
    else
      var last := vals[|vals| - 1];
      Filtered(vals[..|vals| - 1], filter) + (if filter.None? || last.name in filter.value then [last] else [])
  }

  function OwnEntry(vals: seq<NamedValue>, filter: Option<seq<string>>): map<string, Entry> {
    var kept := Filtered(vals, filter);
    if kept == [] then map[] else map["" := ValueList(kept)]
  }

  /** Inner _get_keys: None stands for the FileNotFoundError raised when `key` cannot be opened. */
  function KeysIn(t: Tree, key: KeyRef, level: int, filter: Option<seq<string>>): Option<map<string, Entry>>
    decreases if level > 0 then level else 0, 1, 0
  {
    if key !in t then None
    else
      var own := OwnEntry(t[key].values, filter);
      if level > 0 then Some(SubEntries(t, key, t[key].subkeys, level, filter, own)) else Some(own)
  }

  /** The subkey loop of _get_keys over `names`, starting from `acc`: a subkey that opens is stored
      under its name with its own tree one level down; one that raises is skipped. */
  function SubEntries(t: Tree, key: KeyRef, names: seq<string>, level: int, filter: Option<seq<string>>,
                      acc: map<string, Entry>): map<string, Entry>
    requires level > 0
    decreases level, 0, |names|
  {
    if names == [] then acc
    else
      var before := SubEntries(t, key, names[..|names| - 1], level, filter, acc);
      var name := names[|names| - 1];
      match KeysIn(t, Child(key, name), level - 1, filter)
      case None => before
      case Some(sub) => before[name := SubKey(sub)]
  }

  function KeysOr(r: Option<map<string, Entry>>): map<string, Entry> {
    if r.Some? then r.value else map[]
  }

  /** get_keys as a function. With arch 768 it never fails: combined, the 32-bit dict updates the
      64-bit one; otherwise the first view that opens wins, else the empty dict. */
  function LookupKeys(reg: RegState, key: KeyRef, arch: Arch, level: int, filter: Option<seq<string>>,
                      combine: bool): Option<map<string, Entry>>
  {
    if arch == Both then
      var r64 := KeysIn(reg.view64, key, level, filter);
      var r32 := KeysIn(reg.view32, key, level, filter);
      if combine then Some(KeysOr(r64) + KeysOr(r32))
      else if r64.Some? then r64
      else if r32.Some? then r32
      else Some(map[])
    else KeysIn(TreeOf(reg, ViewOf(reg, arch)), key, level, filter)
  }

  /** _get_keys: the value loop, then (while `level` is positive) the subkey loop recursing one
      level down; a subkey that cannot be opened is skipped. */
  method ReadKeys(t: Tree, key: KeyRef, level: int, filter: Option<seq<string>>)
    returns (r: Option<map<string, Entry>>)
    ensures r == KeysIn(t, key, level, filter)
    decreases if level > 0 then level else 0
  {
    if key !in t {
      return None;
    }
    var node := t[key];
    var values := ReadOwnValues(node, filter);
    var output: map<string, Entry> := map[];
    if values != [] {
      output := output["" := ValueList(values)];
    }
    ghost var own := output;
    if level > 0 {
      for subkeyIndex := 0 to |node.subkeys|
        invariant output == SubEntries(t, key, node.subkeys[..subkeyIndex], level, filter, own)
      {
        var name := node.subkeys[subkeyIndex];
        var sub := ReadKeys(t, Child(key, name), level - 1, filter);
        if sub.Some? {
          output := output[name := SubKey(sub.value)];
        }
        assert node.subkeys[..subkeyIndex + 1][..subkeyIndex] == node.subkeys[..subkeyIndex];
      }
      assert node.subkeys[..|node.subkeys|] == node.subkeys;
    }
    r := Some(output);
  }

  /** The first loop of _get_keys: the key's own values, those the filter names when there is one. */
  method ReadOwnValues(node: Node, filter: Option<seq<string>>) returns (values: seq<NamedValue>)
    ensures values == Filtered(node.values, filter)
  {
    values := [];
    for index := 0 to |node.values|
      invariant values == Filtered(node.values[..index], filter)
    {
      var v := node.values[index];
      if filter.None? || v.name in filter.value {
        values := values + [v];
      }
      assert node.values[..index + 1][..index] == node.values[..index];
    }
    assert node.values[..|node.values|] == node.values;
  }

  /** get_keys: the arch-768 policy, merging with dict.update when combining. */
  method GetKeys(reg: RegState, key: KeyRef, arch: Arch, level: int, filter: Option<seq<string>>, combine: bool)
    returns (r: Option<map<string, Entry>>)
    ensures r == LookupKeys(reg, key, arch, level, filter, combine)
  {
    if arch == Both {
      var views := [View64, View32];
      var result: map<string, Entry> := map[];
      for n := 0 to |views|
        invariant combine ==>
          result == (if n == 0 then map[] else KeysOr(KeysIn(reg.view64, key, level, filter)))
                    + (if n == 2 then KeysOr(KeysIn(reg.view32, key, level, filter)) else map[])
        invariant !combine ==> result == map[] && forall j :: 0 <= j < n ==> KeysIn(TreeOf(reg, views[j]), key, level, filter).None?
      {
        var attempt := ReadKeys(TreeOf(reg, views[n]), key, level, filter);
        if attempt.Some? {
          if combine {
            result := result + attempt.value;
          } else {
            return attempt;
          }
        }
      }
      assert views[0] == View64 && views[1] == View32;
      return Some(result);
    }
    r := ReadKeys(TreeOf(reg, ViewOf(reg, arch)), key, level, filter);
  }

  /** The value filter keeps exactly the values whose name is listed (every value when the filter
      is not a list), never anything else. */
  lemma {:induction false} FilteredMembers(vals: seq<NamedValue>, filter: Option<seq<string>>, x: NamedValue)
    ensures x in Filtered(vals, filter) <==> x in vals && (filter.None? || x.name in filter.value)
  {
    if vals != [] {
      FilteredMembers(vals[..|vals| - 1], filter, x);
      assert vals == vals[..|vals| - 1] + [vals[|vals| - 1]];
    }
  }

  /** Without a list filter the value loop keeps every value in enumeration order. */
  lemma {:induction false} FilteredKeepsAll(vals: seq<NamedValue>)
    ensures Filtered(vals, None) == vals
  {
    if vals != [] {
      FilteredKeepsAll(vals[..|vals| - 1]);
      assert vals == vals[..|vals| - 1] + [vals[|vals| - 1]];
    }
  }

  /** What the subkey loop adds: every name of `names` whose subkey opens, with that subkey's tree;
      all other entries of `acc` are left as they were. */
  lemma {:induction false} SubEntriesContents(t: Tree, key: KeyRef, names: seq<string>, level: int,
                                               filter: Option<seq<string>>, acc: map<string, Entry>, n: string)
    requires level > 0
    ensures n in SubEntries(t, key, names, level, filter, acc)
        <==> n in acc || (n in names && KeysIn(t, Child(key, n), level - 1, filter).Some?)
    ensures n in names && KeysIn(t, Child(key, n), level - 1, filter).Some? ==>
      SubEntries(t, key, names, level, filter, acc)[n] == SubKey(KeysIn(t, Child(key, n), level - 1, filter).value)
    ensures n !in names && n in acc ==> SubEntries(t, key, names, level, filter, acc)[n] == acc[n]
    decreases |names|
  {
    if names != [] {
      var prefix := names[..|names| - 1];
      SubEntriesContents(t, key, prefix, level, filter, acc, n);
      assert names == prefix + [names[|names| - 1]];
    }
  }

  /** The shape of a get_keys result: it fails only when the key is missing; a non-empty filtered
      value list sits under ""; each other name is a subkey that opened, one level down, present
      only while `level` is positive. */
  lemma KeysShape(t: Tree, key: KeyRef, level: int, filter: Option<seq<string>>, n: string)
    ensures KeysIn(t, key, level, filter).None? <==> key !in t
    ensures key in t && n != "" ==>
      (n in KeysIn(t, key, level, filter).value <==>
         level > 0 && n in t[key].subkeys && KeysIn(t, Child(key, n), level - 1, filter).Some?)
    ensures key in t && n != "" && n in KeysIn(t, key, level, filter).value ==>
      KeysIn(t, key, level, filter).value[n] == SubKey(KeysIn(t, Child(key, n), level - 1, filter).value)
    ensures key in t && (level <= 0 || "" !in t[key].subkeys) ==>
      ("" in KeysIn(t, key, level, filter).value <==> Filtered(t[key].values, filter) != [])
    ensures key in t && (level <= 0 || "" !in t[key].subkeys) && "" in KeysIn(t, key, level, filter).value ==>
      KeysIn(t, key, level, filter).value[""] == ValueList(Filtered(t[key].values, filter))
  {
    if key in t && level > 0 {
      var own := OwnEntry(t[key].values, filter);
      SubEntriesContents(t, key, t[key].subkeys, level, filter, own, n);
      SubEntriesContents(t, key, t[key].subkeys, level, filter, own, "");
    }
  }

  /** With arch 768 and combine, a name present in the 32-bit result takes the 32-bit entry (the
      update runs last); any other name keeps the 64-bit entry. */
  lemma KeysCombinedPrecedence(reg: RegState, key: KeyRef, level: int, filter: Option<seq<string>>, n: string)
    ensures var m := LookupKeys(reg, key, Both, level, filter, true).value;
      var r32 := KeysOr(KeysIn(reg.view32, key, level, filter));
      var r64 := KeysOr(KeysIn(reg.view64, key, level, filter));
      (n in m <==> n in r64 || n in r32)
      && (n in r32 ==> m[n] == r32[n])
      && (n !in r32 && n in r64 ==> m[n] == r64[n])
  {
  }

  // ---------------------------------------------------------------- delete_sub_key

  /** `q` is `k` itself or lies somewhere below it. */
  predicate Under(q: KeyRef, k: KeyRef) {
    q.hive == k.hive && |k.path| <= |q.path| && q.path[..|k.path|] == k.path
  }

  function Parent(k: KeyRef): KeyRef
    requires k.path != []
  {
    KeyRef(k.hive, k.path[..|k.path| - 1])
  }

  function Last(k: KeyRef): string
    requires k.path != []
  {
    k.path[|k.path| - 1]
  }

  /** Every subkey a key lists exists. */
  ghost predicate ChildrenExist(t: Tree) {
    forall k, i :: k in t && 0 <= i < |t[k].subkeys| ==> Child(k, t[k].subkeys[i]) in t
  }

  /** Every key below a hive root is listed by its parent, which exists. */
  ghost predicate ParentsList(t: Tree) {
    forall k :: k in t && k.path != [] ==> Parent(k) in t && Last(k) in t[Parent(k)].subkeys
  }

  /** No key lists the same subkey name twice. */
  ghost predicate NamesDistinct(t: Tree) {
    forall k, i, j :: k in t && 0 <= i < j < |t[k].subkeys| ==> t[k].subkeys[i] != t[k].subkeys[j]
  }

  /** What the registry guarantees of one view. */
  ghost predicate WellFormed(t: Tree) {
    ChildrenExist(t) && ParentsList(t) && NamesDistinct(t)
  }

  /** `names` with every occurrence of `n` removed. */
  function Without(names: seq<string>, n: string): (r: seq<string>)
    ensures forall x :: x in r <==> x in names && x != n
  {
    if names == [] then [] else (if names[0] == n then [] else [names[0]]) + Without(names[1..], n)
  }

  /** DeleteKey on a key without subkeys: the key disappears and its parent stops listing it. */
  function RemoveLeaf(t: Tree, k: KeyRef): Tree
    requires k.path != []
  {
    var rest := t - {k};
    var p := Parent(k);
    if p in rest then rest[p := Node(rest[p].values, Without(rest[p].subkeys, Last(k)))] else rest
  }

  /** The keys of `t` at or below `k`: the measure that shrinks as _delete_sub_key recurses. */
  ghost function Descendants(t: Tree, k: KeyRef): set<KeyRef> {
    set q | q in t && Under(q, k)
  }

  lemma UnderChild(q: KeyRef, k: KeyRef, name: string)
    requires Under(q, Child(k, name))
    ensures Under(q, k) && q != k
  {
    assert q.path[..|k.path|] == q.path[..|k.path| + 1][..|k.path|];
  }

  /** In a view whose keys are listed by their parents, every key strictly below `k` lies at or
      below one of the subkeys `k` lists. */
  lemma {:induction false} BelowSomeChild(t: Tree, k: KeyRef, q: KeyRef)
    requires ParentsList(t) && k in t && q in t && Under(q, k) && q != k
    ensures exists j :: 0 <= j < |t[k].subkeys| && Under(q, Child(k, t[k].subkeys[j]))
    decreases |q.path|
  {
    var n := |k.path|;
    assert |q.path| > n;
    var p := Parent(q);
    assert p in t && Last(q) in t[p].subkeys;
    if |q.path| == n + 1 {
      assert p.path == q.path[..n];
      assert p == k;
      var j :| 0 <= j < |t[k].subkeys| && t[k].subkeys[j] == Last(q);
      assert q.path == k.path + [Last(q)];
      assert Under(q, Child(k, t[k].subkeys[j]));
    } else {
      assert p.path[..n] == q.path[..n];
      assert Under(p, k) && p != k;
      BelowSomeChild(t, k, p);
      var j :| 0 <= j < |t[k].subkeys| && Under(p, Child(k, t[k].subkeys[j]));
      assert q.path[..n + 1] == p.path[..n + 1];
      assert Under(q, Child(k, t[k].subkeys[j]));
    }
  }

  /** Removing the first listed name from a list of distinct names leaves the rest of the list. */
  lemma WithoutFirst(names: seq<string>)
    requires names != []
    requires forall i, j :: 0 <= i < j < |names| ==> names[i] != names[j]
    ensures Without(names, names[0]) == names[1..]
  {
    WithoutAbsent(names[1..], names[0]);
  }

  lemma {:induction false} WithoutAbsent(names: seq<string>, n: string)
    requires n !in names
    ensures Without(names, n) == names
  {
    if names != [] {
      WithoutAbsent(names[1..], n);
    }
  }

  lemma {:induction false} WithoutDistinct(names: seq<string>, n: string)
    requires forall i, j :: 0 <= i < j < |names| ==> names[i] != names[j]
    ensures forall i, j :: 0 <= i < j < |Without(names, n)| ==> Without(names, n)[i] != Without(names, n)[j]
  {
    if names != [] {
      WithoutDistinct(names[1..], n);
      var w := Without(names[1..], n);
      assert names[0] !in names[1..];
      if names[0] != n {
        var r := [names[0]] + w;
        assert Without(names, n) == r;
        forall i, j | 0 <= i < j < |r| ensures r[i] != r[j] {
          assert r[j] == w[j - 1];
          if i == 0 {
            assert w[j - 1] in w;
          } else {
            assert r[i] == w[i - 1];
          }
        }
      } else {
        assert Without(names, n) == w;
      }
    }
  }

  /** `t1` is `t0` after `k` and everything below it was deleted: the parent of `k` no longer lists
      it, and every other key is unchanged. */
  ghost predicate DeletedBelow(t0: Tree, t1: Tree, k: KeyRef)
    requires k.path != []
  {
    && (forall q :: q in t1 <==> q in t0 && !Under(q, k))
    && (forall q :: q in t1 && q != Parent(k) ==> t1[q] == t0[q])
    && (Parent(k) in t0 && Parent(k) in t1 ==>
          t1[Parent(k)] == Node(t0[Parent(k)].values, Without(t0[Parent(k)].subkeys, Last(k))))
  }

  /** `t1` is `t0` after every key strictly below `k` was deleted: `k` stays, with no subkeys. */
  ghost predicate Emptied(t0: Tree, t1: Tree, k: KeyRef) {
    && k in t0 && k in t1 && t1[k] == Node(t0[k].values, [])
    && (forall q :: q in t1 <==> q in t0 && !(Under(q, k) && q != k))
    && (forall q :: q in t1 && q != k ==> t1[q] == t0[q])
  }

  /** Only the leaf itself lies at or below a key without subkeys. */
  lemma LeafAlone(t: Tree, c: KeyRef, q: KeyRef)
    requires ParentsList(t) && c in t && t[c].subkeys == [] && q in t && Under(q, c)
    ensures q == c
  {
    if q != c {
      BelowSomeChild(t, c, q);
    }
  }

  lemma ChildParent(k: KeyRef, name: string)
    ensures Child(k, name).path != [] && Parent(Child(k, name)) == k && Last(Child(k, name)) == name
  {
    assert Child(k, name).path[..|k.path|] == k.path;
  }

  lemma SameParentLast(a: KeyRef, b: KeyRef)
    requires a.path != [] && b.path != [] && Parent(a) == Parent(b) && Last(a) == Last(b)
    ensures a == b
  {
    assert a.path == Parent(a).path + [Last(a)];
    assert b.path == Parent(b).path + [Last(b)];
  }

  lemma RemoveLeafChildrenExist(t: Tree, c: KeyRef)
    requires WellFormed(t) && c in t && c.path != [] && t[c].subkeys == []
    ensures ChildrenExist(RemoveLeaf(t, c))
  {
    var r := RemoveLeaf(t, c);
    var p := Parent(c);
    forall k, i | k in r && 0 <= i < |r[k].subkeys| ensures Child(k, r[k].subkeys[i]) in r {
      var name := r[k].subkeys[i];
      ChildParent(k, name);
      assert name in t[k].subkeys;
      var idx :| 0 <= idx < |t[k].subkeys| && t[k].subkeys[idx] == name;
      assert Child(k, t[k].subkeys[idx]) in t;
      if k == p {
        assert name != Last(c);
      }
      assert Child(k, name) != c;
    }
  }

  lemma RemoveLeafParentsList(t: Tree, c: KeyRef)
    requires WellFormed(t) && c in t && c.path != [] && t[c].subkeys == []
    ensures ParentsList(RemoveLeaf(t, c))
  {
    var r := RemoveLeaf(t, c);
    var p := Parent(c);
    forall k | k in r && k.path != [] ensures Parent(k) in r && Last(k) in r[Parent(k)].subkeys {
      assert Parent(k) in t && Last(k) in t[Parent(k)].subkeys;
      if Parent(k) == p && Last(k) == Last(c) {
        SameParentLast(k, c);
      }
    }
  }

  lemma RemoveLeafDistinct(t: Tree, c: KeyRef)
    requires WellFormed(t) && c in t && c.path != []
    ensures NamesDistinct(RemoveLeaf(t, c))
  {
    var p := Parent(c);
    var r := RemoveLeaf(t, c);
    if p in t {
      assert p != c by { assert |p.path| < |c.path|; }
      WithoutDistinct(t[p].subkeys, Last(c));
      forall k, i, j | k in r && 0 <= i < j < |r[k].subkeys| ensures r[k].subkeys[i] != r[k].subkeys[j] {
        if k != p {
          assert r[k] == t[k];
        } else {
          assert r[p] == Node(t[p].values, Without(t[p].subkeys, Last(c)));
        }
      }
    }
  }

  /** A key without subkeys is deleted on its own: nothing lies below it. */
  lemma RemoveLeafDeletes(t: Tree, c: KeyRef)
    requires WellFormed(t) && c in t && c.path != [] && t[c].subkeys == []
    ensures WellFormed(RemoveLeaf(t, c)) && DeletedBelow(t, RemoveLeaf(t, c), c)
  {
    RemoveLeafWellFormed(t, c);
    RemoveLeafDeletedBelow(t, c);
  }

  lemma RemoveLeafWellFormed(t: Tree, c: KeyRef)
    requires WellFormed(t) && c in t && c.path != [] && t[c].subkeys == []
    ensures WellFormed(RemoveLeaf(t, c))
  {
    RemoveLeafChildrenExist(t, c);
    RemoveLeafParentsList(t, c);
    RemoveLeafDistinct(t, c);
  }

  lemma RemoveLeafDeletedBelow(t: Tree, c: KeyRef)
    requires ParentsList(t) && c in t && c.path != [] && t[c].subkeys == []
    ensures DeletedBelow(t, RemoveLeaf(t, c), c)
  {
    var r := RemoveLeaf(t, c);
    forall q ensures q in r <==> q in t && !Under(q, c) {
      if q in t && Under(q, c) {
        LeafAlone(t, c, q);
      }
    }
  }

  /** One turn of the deletion loop: once subkey `subs[c]` and its subtree are gone, the loop state
      holds for `c + 1`. */
  lemma LoopStep(t0: Tree, t: Tree, t1: Tree, k: KeyRef, subs: seq<string>, c: int)
    requires k in t0 && 0 <= c < |subs| && subs == t0[k].subkeys
    requires NamesDistinct(t)
    requires k in t && t[k] == Node(t0[k].values, subs[c..])
    requires forall q :: q in t ==> q in t0
    requires forall q :: q in t0 && q !in t ==> exists j :: 0 <= j < c && Under(q, Child(k, subs[j]))
    requires forall q, j :: q in t && 0 <= j < c ==> !Under(q, Child(k, subs[j]))
    requires forall q :: q in t && q != k ==> t[q] == t0[q]
    requires DeletedBelow(t, t1, Child(k, subs[c]))
    ensures k in t1 && t1[k] == Node(t0[k].values, subs[c + 1..])
    ensures forall q :: q in t1 ==> q in t0
    ensures forall q :: q in t0 && q !in t1 ==> exists j :: 0 <= j < c + 1 && Under(q, Child(k, subs[j]))
    ensures forall q, j :: q in t1 && 0 <= j < c + 1 ==> !Under(q, Child(k, subs[j]))
    ensures forall q :: q in t1 && q != k ==> t1[q] == t0[q]
  {
    var child := Child(k, subs[c]);
    assert Parent(child) == k;
    UnderChildNotParent(k, k, subs[c]);
    assert t[k].subkeys[0] == subs[c];
    WithoutFirst(t[k].subkeys);
    assert subs[c..][1..] == subs[c + 1..];
  }

  lemma UnderChildNotParent(q: KeyRef, k: KeyRef, name: string)
    requires q == k
    ensures !Under(q, Child(k, name))
  {
  }

  /** After the loop has deleted every listed subkey, nothing but `k` is left of its subtree. */
  lemma LoopDone(t0: Tree, t: Tree, k: KeyRef)
    requires WellFormed(t0) && WellFormed(t) && k in t0
    requires k in t && t[k] == Node(t0[k].values, [])
    requires forall q :: q in t ==> q in t0
    requires forall q :: q in t0 && q !in t ==> exists j :: 0 <= j < |t0[k].subkeys| && Under(q, Child(k, t0[k].subkeys[j]))
    requires forall q, j :: q in t && 0 <= j < |t0[k].subkeys| ==> !Under(q, Child(k, t0[k].subkeys[j]))
    requires forall q :: q in t && q != k ==> t[q] == t0[q]
    ensures Emptied(t0, t, k)
  {
    forall q | q in t0 && Under(q, k) && q != k ensures q !in t {
      BelowSomeChild(t0, k, q);
    }
    forall q | q in t0 && q !in t ensures Under(q, k) && q != k {
      var j :| 0 <= j < |t0[k].subkeys| && Under(q, Child(k, t0[k].subkeys[j]));
      UnderChild(q, k, t0[k].subkeys[j]);
    }
  }

  /** Deleting the emptied key itself completes the deletion of its subtree. */
  lemma EmptiedThenRemoved(t0: Tree, t: Tree, k: KeyRef)
    requires WellFormed(t) && k.path != [] && Emptied(t0, t, k)
    ensures WellFormed(RemoveLeaf(t, k)) && DeletedBelow(t0, RemoveLeaf(t, k), k)
  {
    RemoveLeafDeletes(t, k);
    assert Parent(k) != k;
  }

  /** Below a subkey there are fewer keys than below the key itself, so the recursion ends. */
  lemma DescendantsShrink(t0: Tree, t: Tree, k: KeyRef, name: string)
    requires k in t0 && forall q :: q in t ==> q in t0
    ensures |Descendants(t, Child(k, name))| < |Descendants(t0, k)|
  {
    forall q | q in Descendants(t, Child(k, name)) ensures q in Descendants(t0, k) {
      UnderChild(q, k, name);
    }
    UnderChildNotParent(k, k, name);
    assert k in Descendants(t0, k) by { assert k.path[..|k.path|] == k.path; }
    SubsetSize(Descendants(t, Child(k, name)), Descendants(t0, k) - {k});
  }

  lemma {:induction false} SubsetSize<T>(a: set<T>, b: set<T>)
    requires a <= b
    ensures |a| <= |b|
    decreases |a|
  {
    if a != {} {
      var x :| x in a;
      SubsetSize(a - {x}, b - {x});
    }
  }

  /** One architecture view of the live registry, changed in place by key deletion. */
  class ViewStore {
    var keys: Tree

    constructor (t: Tree)
      ensures keys == t
    {
      keys := t;
    }

    /** _delete_sub_key: delete the subtree below `k`, then `k` itself. `ok` is false when OSError
        escapes: the key does not exist, or it is a hive root, which cannot be deleted once its
        subtree has been emptied. */
    method DeleteSubKey(k: KeyRef) returns (ok: bool)
      requires WellFormed(keys)
      modifies this
      ensures WellFormed(keys)
      ensures ok <==> k in old(keys) && k.path != []
      ensures k !in old(keys) ==> keys == old(keys)
      ensures ok && k.path != [] ==> DeletedBelow(old(keys), keys, k)
      ensures k in old(keys) && k.path == [] ==> Emptied(old(keys), keys, k)
      decreases |Descendants(keys, k)|, 1
    {
      if k !in keys {
        return false;
      }
      ghost var t0 := keys;
      DeleteChildren(k);
      if k.path == [] {
        return false;
      }
      EmptiedThenRemoved(t0, keys, k);
      keys := RemoveLeaf(keys, k);
      ok := true;
    }

    /** The loop of _delete_sub_key: as many times as `k` had subkeys, take the first subkey
        listed and delete it, directly when it has no subkeys of its own (DeleteKey), else by
        recursion. */
    method DeleteChildren(k: KeyRef)
      requires WellFormed(keys) && k in keys
      modifies this
      ensures WellFormed(keys) && Emptied(old(keys), keys, k)
      decreases |Descendants(keys, k)|, 0
    {
      ghost var t0 := keys;
      var subs := keys[k].subkeys;
      for c := 0 to |subs|
        invariant WellFormed(keys)
        invariant k in keys && keys[k] == Node(t0[k].values, subs[c..])
        invariant forall q :: q in keys ==> q in t0
        invariant forall q :: q in t0 && q !in keys ==> exists j :: 0 <= j < c && Under(q, Child(k, subs[j]))
        invariant forall q, j :: q in keys && 0 <= j < c ==> !Under(q, Child(k, subs[j]))
        invariant forall q :: q in keys && q != k ==> keys[q] == t0[q]
      {
        var child := Child(k, subs[c]);
        assert keys[k].subkeys[0] == subs[c];
        ghost var before := keys;
        if keys[child].subkeys == [] {
          RemoveLeafDeletes(keys, child);
          keys := RemoveLeaf(keys, child);
        } else {
          DescendantsShrink(t0, keys, k, subs[c]);
          ChildParent(k, subs[c]);
          var _ := DeleteSubKey(child);
        }
        LoopStep(t0, before, keys, k, subs, c);
      }
      LoopDone(t0, keys, k);
    }
  }

  /** The live registry: both architecture views, and which one a plain access reaches. */
  class LiveRegistry {
    const store64: ViewStore
    const store32: ViewStore
    const native64: bool

    ghost predicate Valid()
      reads this, store64, store32
    {
      store64 != store32 && WellFormed(store64.keys) && WellFormed(store32.keys)
    }

    function State(): RegState
      reads this, store64, store32
    {
      RegState(store64.keys, store32.keys, native64)
    }

    constructor (t64: Tree, t32: Tree, native64: bool)
      requires WellFormed(t64) && WellFormed(t32)
      ensures Valid() && State() == RegState(t64, t32, native64)
      ensures fresh(store64) && fresh(store32)
    {
      store64 := new ViewStore(t64);
      store32 := new ViewStore(t32);
      this.native64 := native64;
    }

    /** Whether `arch` (other than 768) reaches the 64-bit view. */
    predicate Reaches64(arch: Arch)
      reads this
    {
      arch == Key64 || (arch == Default && native64)
    }

    /** delete_sub_key: with arch 768 the subtree is deleted from the 64-bit view and then from the
        32-bit one, an OSError in the first stopping the second; otherwise only from the view `arch`
        reaches. */
    method DeleteSubKey(k: KeyRef, arch: Arch) returns (ok: bool)
      requires Valid()
      modifies store64, store32
      ensures Valid()
      ensures arch == Both ==> (ok <==> k in old(store64.keys) && k in old(store32.keys) && k.path != [])
      ensures arch == Both && k in old(store64.keys) && k.path != [] ==>
        && DeletedBelow(old(store64.keys), store64.keys, k)
        && (k in old(store32.keys) ==> DeletedBelow(old(store32.keys), store32.keys, k))
        && (k !in old(store32.keys) ==> store32.keys == old(store32.keys))
      ensures arch == Both && k !in old(store64.keys) ==> store64.keys == old(store64.keys) && store32.keys == old(store32.keys)
      ensures arch == Both && k in old(store64.keys) && k.path == [] ==>
        Emptied(old(store64.keys), store64.keys, k) && store32.keys == old(store32.keys)
      ensures arch != Both && Reaches64(arch) ==>
        && store32.keys == old(store32.keys)
        && (ok <==> k in old(store64.keys) && k.path != [])
        && (k !in old(store64.keys) ==> store64.keys == old(store64.keys))
        && (ok ==> DeletedBelow(old(store64.keys), store64.keys, k))
        && (k in old(store64.keys) && k.path == [] ==> Emptied(old(store64.keys), store64.keys, k))
      ensures arch != Both && !Reaches64(arch) ==>
        && store64.keys == old(store64.keys)
        && (ok <==> k in old(store32.keys) && k.path != [])
        && (k !in old(store32.keys) ==> store32.keys == old(store32.keys))
        && (ok ==> DeletedBelow(old(store32.keys), store32.keys, k))
        && (k in old(store32.keys) && k.path == [] ==> Emptied(old(store32.keys), store32.keys, k))
    {
      if arch == Both {
        var stores := [store64, store32];
        ok := true;
        for n := 0 to |stores|
          invariant Valid() && ok
          invariant n >= 1 ==> k in old(store64.keys) && k.path != [] && DeletedBelow(old(store64.keys), store64.keys, k)
          invariant n == 0 ==> store64.keys == old(store64.keys)
          invariant n <= 1 ==> store32.keys == old(store32.keys)
          invariant n == 2 ==> k in old(store32.keys) && DeletedBelow(old(store32.keys), store32.keys, k)
        {
          ok := stores[n].DeleteSubKey(k);
          if !ok {
            return;
          }
        }
        return;
      }
      if Reaches64(arch) {
        ok := store64.DeleteSubKey(k);
      } else {
        ok := store32.DeleteSubKey(k);
      }
    }
  }
}
