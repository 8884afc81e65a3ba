/** Browser-use settings: approval modes, and three tables of allowed and denied origins kept
    in a configuration file. The file is a table that reads back as it was written. */
module BrowserOrigins {
  import opened Wrappers
  import opened Text

  datatype Value = Str(text: string) | Arr(items: seq<Value>) | Tab(entries: Table) | Other

  type Table = map<string, Value>

  datatype Kind = Allowed | Denied

  datatype TableKey = Origins | Downloads | Uploads

  datatype ModeKey = Approval | HistoryApproval | DownloadApproval | UploadApproval

  datatype Mode = AlwaysAsk | NeverAsk

  function TableName(key: TableKey): string {
    match key case Origins => "origins" case Downloads => "downloads" case Uploads => "uploads"
  }

  function ModeName(key: ModeKey): string {
    match key
    case Approval => "approval_mode"
    case HistoryApproval => "history_approval_mode"
    case DownloadApproval => "download_approval_mode"
    case UploadApproval => "upload_approval_mode"
  }

  function ListName(kind: Kind): string { if kind.Allowed? then "allowed" else "denied" }

  function Opposite(kind: Kind): Kind { if kind.Allowed? then Denied else Allowed }

  function Lookup(table: Table, key: string): Option<Value> { if key in table then Some(table[key]) else None }

  // ---------- origin lists ----------

  function WithOrigin(origins: seq<string>, item: Value): seq<string> {
    if !item.Str? || Trim(item.text) == "" || Trim(item.text) in origins then origins
    else origins + [Trim(item.text)]
  }

  function Normalized(items: seq<Value>): seq<string> {
    if items == [] then [] else WithOrigin(Normalized(items[..|items| - 1]), items[|items| - 1])
  }

  function OriginList(value: Option<Value>): seq<string> {
    if value.Some? && value.value.Arr? then Normalized(value.value.items) else []
  }

  method NormalizedOriginList(value: Option<Value>) returns (normalized: seq<string>)
    ensures normalized == OriginList(value)
  {
    normalized := [];
    if value.None? || !value.value.Arr? {
      return;
    }
    var items := value.value.items;
    for i := 0 to |items|
      invariant normalized == Normalized(items[..i])
    {
      assert items[..i + 1][..i] == items[..i];
      if items[i].Str? {
        var trimmed := Trim(items[i].text);
        if trimmed != "" && trimmed !in normalized {
          normalized := normalized + [trimmed];
        }
      }
    }
    assert items[..|items|] == items;
  }

  function Strings(origins: seq<string>): Value {
    Arr(seq(|origins|, i requires 0 <= i < |origins| => Str(origins[i])))
  }

  ghost predicate Clean(origin: string) { origin != "" && Trim(origin) == origin }

  ghost predicate Tidy(origins: seq<string>) {
    && (forall i :: 0 <= i < |origins| ==> Clean(origins[i]))
    && (forall i, j :: 0 <= i < j < |origins| ==> origins[i] != origins[j])
  }

  lemma {:induction false} NormalizedTidy(items: seq<Value>)
    ensures Tidy(Normalized(items))
  {
    hide Trim;
    if items != [] {
      NormalizedTidy(items[..|items| - 1]);
      var item := items[|items| - 1];
      if item.Str? {
        TrimAgain(item.text);
      }
    }
  }

  lemma TrimAgain(s: string)
    ensures Trim(Trim(s)) == Trim(s)
  {
    TrimTwice(s, IsWhiteSpace);
  }

  lemma {:induction false} StringsReadBack(origins: seq<string>)
    requires Tidy(origins)
    ensures OriginList(Some(Strings(origins))) == origins
  {
    hide Trim;
    if origins != [] {
      var init := origins[..|origins| - 1];
      StringsReadBack(init);
      assert Strings(origins).items[..|origins| - 1] == Strings(init).items;
      assert origins == init + [origins[|origins| - 1]];
      assert Clean(origins[|origins| - 1]);
    }
  }

  function Without(origins: seq<string>, origin: string): seq<string> {
    if origins == [] then []
    else (if origins[0] == origin then [] else [origins[0]]) + Without(origins[1..], origin)
  }

  lemma {:induction false} WithoutMembers(origins: seq<string>, origin: string)
    ensures forall o :: o in Without(origins, origin) <==> o in origins && o != origin
    ensures |Without(origins, origin)| <= |origins|
    ensures |Without(origins, origin)| == |origins| ==> Without(origins, origin) == origins
    ensures origin !in origins ==> Without(origins, origin) == origins
  {
    if origins != [] {
      WithoutMembers(origins[1..], origin);
      assert origins == [origins[0]] + origins[1..];
    }
  }

  lemma {:induction false} WithoutTidy(origins: seq<string>, origin: string)
    requires Tidy(origins)
    ensures Tidy(Without(origins, origin))
  {
    hide Clean;
    if origins != [] {
      var rest := Without(origins[1..], origin);
      WithoutTidy(origins[1..], origin);
      WithoutMembers(origins[1..], origin);
      assert origins[0] !in origins[1..];
      assert origins[0] !in rest;
    }
  }

  // ---------- operations on the table ----------

  function NestedTable(table: Table, key: string): Table {
    if key in table && table[key].Tab? then table[key].entries else map[]
  }

  function ListIn(table: Table, key: TableKey, kind: Kind): seq<string> {
    OriginList(Lookup(NestedTable(table, TableName(key)), ListName(kind)))
  }

  function WithList(table: Table, key: TableKey, kind: Kind, origins: seq<string>): Table {
    table[TableName(key) := Tab(NestedTable(table, TableName(key))[ListName(kind) := Strings(origins)])]
  }

  function ModeOf(value: Option<Value>): Mode { if value == Some(Str("never_ask")) then NeverAsk else AlwaysAsk }

  function ModeIn(table: Table, key: ModeKey): Mode { ModeOf(Lookup(table, ModeName(key))) }

  /** Everything a reader of the settings sees. */
  datatype Settings = Settings(
    approval: Mode, historyApproval: Mode, downloadApproval: Mode, uploadApproval: Mode,
    allowed: seq<string>, denied: seq<string>,
    allowedDownloads: seq<string>, deniedDownloads: seq<string>,
    allowedUploads: seq<string>, deniedUploads: seq<string>)

  function SettingsOf(table: Table): Settings {
    Settings(ModeIn(table, Approval), ModeIn(table, HistoryApproval),
             ModeIn(table, DownloadApproval), ModeIn(table, UploadApproval),
             ListIn(table, Origins, Allowed), ListIn(table, Origins, Denied),
             ListIn(table, Downloads, Allowed), ListIn(table, Downloads, Denied),
             ListIn(table, Uploads, Allowed), ListIn(table, Uploads, Denied))
  }

  /** A new origin goes to the end, and one already listed stays where it is. */
  lemma AddedLast(table: Table, key: TableKey, kind: Kind, origin: string)
    requires Clean(origin)
    ensures var before, after := ListIn(table, key, kind), ListIn(Added(table, key, kind, origin), key, kind);
            after == if origin in before then before else before + [origin]
  {
    hide ListIn, Added, Clean;
    AddReads(table, key, kind, origin);
  }

  function AddedList(origins: seq<string>, origin: string): seq<string> {
    if origin in origins then origins else origins + [origin]
  }

  /** The table after an add, as it is held in memory. */
  function Added(table: Table, key: TableKey, kind: Kind, origin: string): Table {
    var own := AddedList(ListIn(table, key, kind), origin);
    var other := Without(ListIn(table, key, Opposite(kind)), origin);
    WithList(WithList(table, key, kind, own), key, Opposite(kind), other)
  }

  predicate AddChanges(table: Table, key: TableKey, kind: Kind, origin: string) {
    || origin !in ListIn(table, key, kind)
    || origin in ListIn(table, key, Opposite(kind))
  }

  /** A list read back from any table is tidy. */
  lemma ListTidy(table: Table, key: TableKey, kind: Kind)
    ensures Tidy(ListIn(table, key, kind))
  {
    hide Tidy;
    var value := Lookup(NestedTable(table, TableName(key)), ListName(kind));
    if value.Some? && value.value.Arr? {
      NormalizedTidy(value.value.items);
    } else {
      NormalizedTidy([]);
      assert Normalized([]) == [];
    }
  }

  lemma NamesDiffer()
    ensures forall a: TableKey, b: TableKey :: a != b ==> TableName(a) != TableName(b)
    ensures forall a: TableKey, b: ModeKey :: TableName(a) != ModeName(b)
    ensures forall a: ModeKey, b: ModeKey :: a != b ==> ModeName(a) != ModeName(b)
    ensures ListName(Allowed) != ListName(Denied)
  {
    assert TableName(Origins)[0] == 'o' && TableName(Downloads)[0] == 'd' && TableName(Uploads)[0] == 'u';
    assert |TableName(Origins)| == 7 && |TableName(Downloads)| == 9 && |TableName(Uploads)| == 7;
    assert |ModeName(Approval)| == 13 && |ModeName(HistoryApproval)| == 21
        && |ModeName(DownloadApproval)| == 22 && |ModeName(UploadApproval)| == 20;
  }

  lemma WithListReads(table: Table, key: TableKey, kind: Kind, origins: seq<string>)
    requires Tidy(origins)
    ensures var after := WithList(table, key, kind, origins);
            && ListIn(after, key, kind) == origins
            && ListIn(after, key, Opposite(kind)) == ListIn(table, key, Opposite(kind))
            && (forall other: TableKey, k: Kind :: other != key ==> ListIn(after, other, k) == ListIn(table, other, k))
            && (forall mode: ModeKey :: ModeIn(after, mode) == ModeIn(table, mode))
            && (forall name :: name != TableName(key) ==> Lookup(after, name) == Lookup(table, name))
  {
    hide Tidy, Strings, Normalized, TableName, ModeName, ListName;
    NamesDiffer();
    StringsReadBack(origins);
  }

  /** An add puts the origin on its list and off the other; nothing else can be told apart. */
  lemma AddReads(table: Table, key: TableKey, kind: Kind, origin: string)
    requires Clean(origin)
    ensures var after := Added(table, key, kind, origin);
            && ListIn(after, key, kind) == AddedList(ListIn(table, key, kind), origin)
            && ListIn(after, key, Opposite(kind)) == Without(ListIn(table, key, Opposite(kind)), origin)
            && (forall other: TableKey, k: Kind :: other != key ==> ListIn(after, other, k) == ListIn(table, other, k))
            && (forall mode: ModeKey :: ModeIn(after, mode) == ModeIn(table, mode))
            && (forall name :: name != TableName(key) ==> Lookup(after, name) == Lookup(table, name))
  {
    hide WithList, ListIn, ModeIn, Clean, TableName, ListName, ModeName;
    var own, other := AddedList(ListIn(table, key, kind), origin), Without(ListIn(table, key, Opposite(kind)), origin);
    ListTidy(table, key, kind);
    ListTidy(table, key, Opposite(kind));
    WithoutTidy(ListIn(table, key, Opposite(kind)), origin);
    WithListReads(table, key, kind, own);
    WithListReads(WithList(table, key, kind, own), key, Opposite(kind), other);
  }

  /** When an add changes neither list, skipping the write goes unnoticed. */
  lemma SkippedWriteInvisible(table: Table, key: TableKey, kind: Kind, origin: string)
    requires Clean(origin) && !AddChanges(table, key, kind, origin)
    ensures SettingsOf(Added(table, key, kind, origin)) == SettingsOf(table)
  {
    hide Added, ListIn, ModeIn, Clean, TableName, ListName;
    AddReads(table, key, kind, origin);
    WithoutMembers(ListIn(table, key, Opposite(kind)), origin);
  }

  class SettingsFile {
    var table: Table

    constructor ()
      ensures table == map[]
    {
      table := map[];
    }

    method WriteApprovalMode(key: ModeKey, mode: Mode) returns (settings: Settings)
      modifies this
      ensures table == old(table)[ModeName(key) := Str(if mode.NeverAsk? then "never_ask" else "always_ask")]
      ensures settings == SettingsOf(table)
      ensures table == Apply(old(table), SetMode(key, if mode.NeverAsk? then "never_ask" else "always_ask"))
      ensures ModeIn(table, key) == mode
      ensures forall other: ModeKey :: other != key ==> ModeIn(table, other) == ModeIn(old(table), other)
      ensures forall k: TableKey, kind: Kind :: ListIn(table, k, kind) == ListIn(old(table), k, kind)
    {
      hide Normalized, TableName, ModeName, ListName;
      NamesDiffer();
      table := table[ModeName(key) := Str(if mode.NeverAsk? then "never_ask" else "always_ask")];
      settings := SettingsOf(table);
    }

    /** `origin` is the normalised origin of the given address, if it has one. The settings
        returned are those a fresh read would find, also when nothing was written. */
    method AddOrigin(key: TableKey, kind: Kind, origin: Option<string>) returns (settings: Option<Settings>)
      requires origin.Some? ==> Clean(origin.value)
      modifies this
      ensures origin.None? ==> settings.None? && table == old(table)
      ensures origin.Some? ==>
                && settings == Some(SettingsOf(table))
                && table == if AddChanges(old(table), key, kind, origin.value)
                            then Added(old(table), key, kind, origin.value) else old(table)
      ensures origin.Some? ==> table == Apply(old(table), Add(key, kind, origin.value))
    {
      hide SettingsOf, Normalized, TableName, ListName, Clean;
      if origin.None? {
        return None;
      }
      var nested := NestedTable(table, TableName(key));
      var next := NormalizedOriginList(Lookup(nested, ListName(kind)));
      var opposite := NormalizedOriginList(Lookup(nested, ListName(Opposite(kind))));
      var changed := false;
      if origin.value !in next {
        next := next + [origin.value];
        changed := true;
      }
      var rest := Without(opposite, origin.value);
      if rest != opposite {
        changed := true;
      }
      WithoutMembers(opposite, origin.value);
      var edited := WithList(table, key, kind, next);
      edited := WithList(edited, key, Opposite(kind), rest);
      assert edited == Added(table, key, kind, origin.value);
      if changed {
        table := edited;
      } else {
        SkippedWriteInvisible(table, key, kind, origin.value);
      }
      settings := Some(SettingsOf(edited));
    }

    /** Removes an origin exactly as it is spelled. */
    method RemoveOrigin(key: TableKey, kind: Kind, target: string) returns (settings: Settings)
      modifies this
      ensures settings == SettingsOf(table)
      ensures table == Removed(old(table), key, kind, target) == Apply(old(table), Remove(key, kind, target))
    {
      hide SettingsOf, WithList, Normalized, TableName, ListName;
      if TableName(key) !in table || !table[TableName(key)].Tab? {
        assert target !in ListIn(table, key, kind);
        return SettingsOf(table);
      }
      var current := NormalizedOriginList(Lookup(table[TableName(key)].entries, ListName(kind)));
      var next := Without(current, target);
      WithoutMembers(current, target);
      if |next| != |current| {
        table := WithList(table, key, kind, next);
      }
      settings := SettingsOf(table);
    }
  }

  function Removed(table: Table, key: TableKey, kind: Kind, target: string): Table {
    if target !in ListIn(table, key, kind) then table
    else WithList(table, key, kind, Without(ListIn(table, key, kind), target))
  }

  // ---------- the file itself ----------

  function ModeText(never: bool): Value { Str(if never then "never_ask" else "always_ask") }

  function ModeRead(never: bool): Mode { if never then NeverAsk else AlwaysAsk }

  function OriginTable(allowed: seq<string>, denied: seq<string>): Value {
    Tab(map["allowed" := Strings(allowed), "denied" := Strings(denied)])
  }

  /** A file written out in full reads back entry by entry. */
  lemma FileReadsBack(table: Table, modes: seq<bool>, lists: seq<seq<string>>)
    requires |modes| == 4 && |lists| == 6 && forall i :: 0 <= i < 6 ==> Tidy(lists[i])
    requires Lookup(table, "approval_mode") == Some(ModeText(modes[0]))
    requires Lookup(table, "history_approval_mode") == Some(ModeText(modes[1]))
    requires Lookup(table, "download_approval_mode") == Some(ModeText(modes[2]))
    requires Lookup(table, "upload_approval_mode") == Some(ModeText(modes[3]))
    requires Lookup(table, "origins") == Some(OriginTable(lists[0], lists[1]))
    requires Lookup(table, "downloads") == Some(OriginTable(lists[2], lists[3]))
    requires Lookup(table, "uploads") == Some(OriginTable(lists[4], lists[5]))
    ensures SettingsOf(table)
         == Settings(ModeRead(modes[0]), ModeRead(modes[1]), ModeRead(modes[2]), ModeRead(modes[3]),
                     lists[0], lists[1], lists[2], lists[3], lists[4], lists[5])
  {
    hide Tidy, Strings, Normalized;
    ModesRead(modes[0]);
    ModesRead(modes[1]);
    ModesRead(modes[2]);
    ModesRead(modes[3]);
    OriginTableReads(table, Origins, lists[0], lists[1]);
    OriginTableReads(table, Downloads, lists[2], lists[3]);
    OriginTableReads(table, Uploads, lists[4], lists[5]);
  }

  lemma ModesRead(never: bool)
    ensures ModeOf(Some(ModeText(never))) == ModeRead(never)
  {
  }

  lemma OriginTableReads(table: Table, key: TableKey, allowed: seq<string>, denied: seq<string>)
    requires Tidy(allowed) && Tidy(denied)
    requires Lookup(table, TableName(key)) == Some(OriginTable(allowed, denied))
    ensures ListIn(table, key, Allowed) == allowed && ListIn(table, key, Denied) == denied
  {
    hide Tidy, Strings, Normalized, TableName;
    StringsReadBack(allowed);
    StringsReadBack(denied);
  }

  /** Anything but the one text that says never asks always: a missing mode, another text, or a
      value that is no text. */
  lemma OtherwiseAsks(table: Table, key: ModeKey)
    ensures ModeIn(table, key) == NeverAsk <==> Lookup(table, ModeName(key)) == Some(Str("never_ask"))
    ensures ModeIn(table, key) != NeverAsk ==> ModeIn(table, key) == AlwaysAsk
  {
  }

  /** What is missing or of another type reads as an empty list. */
  lemma OtherwiseEmpty(table: Table, key: TableKey, kind: Kind)
    requires var nested := Lookup(table, TableName(key));
             nested.None? || !nested.value.Tab?
             || ListName(kind) !in nested.value.entries || !nested.value.entries[ListName(kind)].Arr?
    ensures ListIn(table, key, kind) == []
  {
    hide TableName, ListName;
  }

  // ---------- sequences of operations ----------

  datatype Op =
    | Add(key: TableKey, kind: Kind, origin: string)
    | Remove(key: TableKey, kind: Kind, target: string)
    | SetMode(mode: ModeKey, value: string)

  function Apply(table: Table, op: Op): Table {
    match op
    case Add(key, kind, origin) =>
      if AddChanges(table, key, kind, origin) then Added(table, key, kind, origin) else table
    case Remove(key, kind, target) => Removed(table, key, kind, target)
    case SetMode(mode, value) => table[ModeName(mode) := Str(value)]
  }

  function ApplyAll(table: Table, ops: seq<Op>): Table {
    if ops == [] then table else Apply(ApplyAll(table, ops[..|ops| - 1]), ops[|ops| - 1])
  }

  ghost predicate Disjoint(table: Table, key: TableKey) {
    forall o :: o in ListIn(table, key, Allowed) ==> o !in ListIn(table, key, Denied)
  }

  ghost predicate Touches(op: Op, key: TableKey) { (op.Add? || op.Remove?) && op.key == key }

  lemma RemoveReads(table: Table, key: TableKey, kind: Kind, target: string)
    ensures var after := Removed(table, key, kind, target);
            && ListIn(after, key, kind) == Without(ListIn(table, key, kind), target)
            && ListIn(after, key, Opposite(kind)) == ListIn(table, key, Opposite(kind))
            && (forall other: TableKey, k: Kind :: other != key ==> ListIn(after, other, k) == ListIn(table, other, k))
            && (forall mode: ModeKey :: ModeIn(after, mode) == ModeIn(table, mode))
            && (forall name :: name != TableName(key) ==> Lookup(after, name) == Lookup(table, name))
  {
    hide WithList, ListIn, ModeIn, TableName, ListName, ModeName;
    var current := ListIn(table, key, kind);
    ListTidy(table, key, kind);
    WithoutMembers(current, target);
    WithoutTidy(current, target);
    WithListReads(table, key, kind, Without(current, target));
  }

  lemma SetModeReads(table: Table, mode: ModeKey, value: string, key: TableKey)
    ensures forall kind: Kind :: ListIn(table[ModeName(mode) := Str(value)], key, kind) == ListIn(table, key, kind)
  {
    hide Normalized, TableName, ModeName, ListName;
    NamesDiffer();
  }

  lemma AddKeepsDisjoint(table: Table, touched: TableKey, kind: Kind, origin: string, key: TableKey)
    requires Disjoint(table, key) && Clean(origin)
    ensures Disjoint(Added(table, touched, kind, origin), key)
    ensures touched != key ==>
              forall k: Kind :: ListIn(Added(table, touched, kind, origin), key, k) == ListIn(table, key, k)
  {
    hide ListIn, Added, Clean, Without;
    AddReads(table, touched, kind, origin);
    WithoutMembers(ListIn(table, touched, Opposite(kind)), origin);
  }

  lemma RemoveKeepsDisjoint(table: Table, touched: TableKey, kind: Kind, target: string, key: TableKey)
    requires Disjoint(table, key)
    ensures Disjoint(Removed(table, touched, kind, target), key)
    ensures touched != key ==>
              forall k: Kind :: ListIn(Removed(table, touched, kind, target), key, k) == ListIn(table, key, k)
  {
    hide ListIn, Removed, Without;
    RemoveReads(table, touched, kind, target);
    WithoutMembers(ListIn(table, touched, kind), target);
  }

  lemma StepKeepsDisjoint(table: Table, op: Op, key: TableKey)
    requires Disjoint(table, key) && (op.Add? ==> Clean(op.origin))
    ensures Disjoint(Apply(table, op), key)
    ensures !Touches(op, key) ==> forall kind: Kind :: ListIn(Apply(table, op), key, kind) == ListIn(table, key, kind)
  {
    hide ListIn, Added, Removed, Clean, AddChanges;
    match op
    case Add(touched, kind, origin) => AddKeepsDisjoint(table, touched, kind, origin, key);
    case Remove(touched, kind, target) => RemoveKeepsDisjoint(table, touched, kind, target, key);
    case SetMode(mode, value) =>
      SetModeReads(table, mode, value, key);
      assert ListIn(Apply(table, op), key, Allowed) == ListIn(table, key, Allowed);
      assert ListIn(Apply(table, op), key, Denied) == ListIn(table, key, Denied);
  }

  /** Over every sequence of operations the six lists stay free of duplicates and blanks, and
      the two lists of a table that started apart stay apart. */
  lemma {:induction false} ListsStayDisjoint(table: Table, ops: seq<Op>, key: TableKey)
    requires Disjoint(table, key)
    requires forall i :: 0 <= i < |ops| && ops[i].Add? ==> Clean(ops[i].origin)
    ensures Disjoint(ApplyAll(table, ops), key)
    ensures forall kind: Kind :: Tidy(ListIn(ApplyAll(table, ops), key, kind))
    ensures (forall i :: 0 <= i < |ops| ==> !Touches(ops[i], key)) ==>
              forall kind: Kind :: ListIn(ApplyAll(table, ops), key, kind) == ListIn(table, key, kind)
  {
    hide Disjoint, ListIn, Apply, Clean, Tidy, Touches;
    forall kind: Kind ensures Tidy(ListIn(ApplyAll(table, ops), key, kind)) {
      ListTidy(ApplyAll(table, ops), key, kind);
    }
    if ops != [] {
      ListsStayDisjoint(table, ops[..|ops| - 1], key);
      StepKeepsDisjoint(ApplyAll(table, ops[..|ops| - 1]), ops[|ops| - 1], key);
    }
  }

  /** Removing an origin that was new to both lists undoes adding it. */
  lemma RemoveUndoesAdd(table: Table, key: TableKey, kind: Kind, origin: string)
    requires Clean(origin)
    requires origin !in ListIn(table, key, kind) && origin !in ListIn(table, key, Opposite(kind))
    ensures var after := Removed(Added(table, key, kind, origin), key, kind, origin);
            forall other: TableKey, k: Kind :: ListIn(after, other, k) == ListIn(table, other, k)
  {
    hide ListIn, ModeIn, Added, Removed, Clean;
    AddReads(table, key, kind, origin);
    RemoveReads(Added(table, key, kind, origin), key, kind, origin);
    WithoutMembers(ListIn(table, key, Opposite(kind)), origin);
    WithoutLast(ListIn(table, key, kind), origin);
    var after := Removed(Added(table, key, kind, origin), key, kind, origin);
    forall other: TableKey, k: Kind ensures ListIn(after, other, k) == ListIn(table, other, k) {
      assert k == kind || k == Opposite(kind);
    }
  }

  lemma {:induction false} WithoutLast(origins: seq<string>, origin: string)
    requires origin !in origins
    ensures Without(origins + [origin], origin) == origins
  {
    if origins != [] {
      assert (origins + [origin])[1..] == origins[1..] + [origin];
      WithoutLast(origins[1..], origin);
    }
  }
}
