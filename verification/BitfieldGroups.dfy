/** How the visitor of a C struct collects adjacent bitfields into groups over one base field. */
module BitfieldGroups {
  import opened Arithmetic
  import opened Bitfields
  import Bits

  /** A member as clang reports it, with all numbers in bits: offset in the struct, alignment and
      size of its type, and the width of the member itself. */
  datatype Decl = Decl(name: string, offset: nat, align: nat, typeBits: nat, bits: nat, isBitField: bool)

  datatype FieldName = Declared(name: string) | Shared(num: nat)

  /** A field of the Go struct, with the position of the declaration it was made for. */
  datatype Entry = Entry(name: FieldName, pos: nat)

  /** A bitfield found so far; `field` is the index of its base field. */
  datatype Info = Info(field: nat, name: string, startBit: nat, endBit: nat, pos: nat)

  /** A member with its offset in the storage unit of its type. */
  datatype Member = Member(name: string, rem: nat, isBitField: bool)

  function MemberOf(d: Decl): Member
    requires d.align > 0
  {
    Member(d.name, d.offset % d.align, d.isBitField)
  }

  /** The members that become fields of their own, unless their name is empty. */
  predicate Starts(d: Member) {
    d.name != "" && d.rem == 0
  }

  predicate Continues(d: Member) {
    d.name != "" && d.rem != 0 && d.isBitField
  }

  // ---------------------------------------------------------------------------
  // What the visitor's lists mean

  datatype State = State(fields: seq<Entry>, inBitfield: bool, bitfieldNum: nat, infos: seq<Info>)

  ghost predicate FieldOk(members: seq<Member>, n: nat, e: Entry)
    requires n <= |members|
  {
    e.pos < n && Starts(members[e.pos]) && (e.name.Declared? ==> e.name.name == members[e.pos].name)
  }

  ghost predicate InfoOk(members: seq<Member>, n: nat, fields: seq<Entry>, e: Info)
    requires n <= |members|
  {
    && e.field < |fields| && fields[e.field].name.Shared? && fields[e.field].pos <= e.pos < n
    && e.name == members[e.pos].name && e.startBit == members[e.pos].rem
  }

  /** The member that begins its base field. */
  ghost predicate IsBase(fields: seq<Entry>, e: Info) {
    e.field < |fields| && e.pos == fields[e.field].pos
  }

  /** Two neighbours in the list: the second either continues the group, and the first ends where
      it begins, or it begins the next group, and the first has no recorded end. */
  ghost predicate Linked(fields: seq<Entry>, a: Info, b: Info) {
    && a.pos < b.pos
    && if a.field == b.field then a.endBit == b.startBit != 0
       else a.field < b.field && a.endBit == 0 && IsBase(fields, b) && Number(fields, b) == Number(fields, a) + 1
  }

  /** The number of the group an entry belongs to. */
  function Number(fields: seq<Entry>, e: Info): int {
    if e.field < |fields| && fields[e.field].name.Shared? then fields[e.field].name.num else -1
  }

  ghost predicate LinkAt(fields: seq<Entry>, infos: seq<Info>, j: nat)
    requires 0 < j < |infos|
  {
    Linked(fields, infos[j - 1], infos[j])
  }

  ghost predicate FieldsOk(members: seq<Member>, n: nat, fields: seq<Entry>)
    requires n <= |members|
  {
    && (forall i :: 0 <= i < |fields| ==> FieldOk(members, n, fields[i]))
    && (forall i, j :: 0 <= i < j < |fields| ==> fields[i].pos < fields[j].pos)
  }

  ghost predicate InfosOk(members: seq<Member>, n: nat, fields: seq<Entry>, infos: seq<Info>)
    requires n <= |members|
  {
    && (forall i :: 0 <= i < |infos| ==> InfoOk(members, n, fields, infos[i]))
    && (forall j: nat :: 0 < j < |infos| ==> LinkAt(fields, infos, j))
    && (infos != [] ==> IsBase(fields, infos[0]) && infos[|infos| - 1].endBit == 0)
  }

  /** The group being extended is that of the last field; otherwise the last field is on its own
      and comes after all groups. */
  ghost predicate OpenOk(s: State) {
    && (s.inBitfield ==> s.infos != [] && s.infos[|s.infos| - 1].field == |s.fields| - 1)
    && (!s.inBitfield && s.fields != [] ==>
          var last := s.fields[|s.fields| - 1];
          last.name.Declared? && (s.infos != [] ==> s.infos[|s.infos| - 1].pos < last.pos))
    && s.bitfieldNum == if s.infos == [] then 0 else Number(s.fields, s.infos[|s.infos| - 1])
  }

  /** No member visited so far is forgotten. */
  ghost predicate Complete(members: seq<Member>, n: nat, s: State)
    requires n <= |members|
  {
    && (forall k :: 0 <= k < n && Starts(members[k]) ==> HasField(s.fields, k))
    && (forall k :: 0 <= k < n && Continues(members[k]) ==> HasInfo(s.infos, k))
  }

  ghost predicate HasField(fields: seq<Entry>, k: nat) {
    exists i :: 0 <= i < |fields| && fields[i].pos == k
  }

  ghost predicate HasInfo(infos: seq<Info>, k: nat) {
    exists i :: 0 <= i < |infos| && infos[i].pos == k
  }

  /** An entry begins its base field or continues it, and no later field comes before it. */
  ghost predicate Anchored(members: seq<Member>, fields: seq<Entry>, e: Info) {
    && (IsBase(fields, e) || (e.pos < |members| && Continues(members[e.pos])))
    && forall m :: e.field < m < |fields| ==> e.pos < fields[m].pos
  }

  ghost predicate AllAnchored(members: seq<Member>, fields: seq<Entry>, infos: seq<Info>) {
    forall i :: 0 <= i < |infos| ==> Anchored(members, fields, infos[i])
  }

  /** Entry `i` continues the field of the entry before it. */
  ghost predicate SameField(infos: seq<Info>, i: nat) {
    0 < i < |infos| && infos[i - 1].field == infos[i].field
  }

  /** An entry that begins a field is followed by one that continues it. */
  ghost predicate PairedAt(infos: seq<Info>, i: nat) {
    !SameField(infos, i) ==> SameField(infos, i + 1)
  }

  ghost predicate Paired(infos: seq<Info>) {
    forall i: nat :: i < |infos| ==> PairedAt(infos, i)
  }

  /** The same while the last entry waits for the one it was made for. */
  ghost predicate PairedBut(infos: seq<Info>) {
    forall i: nat :: i < |infos| - 1 ==> PairedAt(infos, i)
  }

  lemma PairedOpens(infos: seq<Info>, e: Info)
    requires Paired(infos)
    ensures PairedBut(infos + [e])
  {
    forall i: nat | i < |infos| ensures PairedAt(infos + [e], i) {
      assert PairedAt(infos, i);
    }
  }

  lemma PairedExtends(infos: seq<Info>, more: seq<Info>)
    requires PairedBut(infos) && infos != [] && |more| == |infos| + 1
    requires forall i :: 0 <= i < |infos| ==> more[i].field == infos[i].field
    requires more[|infos|].field == infos[|infos| - 1].field
    ensures Paired(more)
  {
    forall i: nat | i < |more| ensures PairedAt(more, i) {
      if i < |infos| - 1 {
        assert PairedAt(infos, i);
      }
    }
  }

  ghost predicate Recorded(members: seq<Member>, n: nat, s: State)
    requires n <= |members|
  {
    && FieldsOk(members, n, s.fields) && InfosOk(members, n, s.fields, s.infos) && OpenOk(s)
    && Complete(members, n, s) && AllAnchored(members, s.fields, s.infos)
  }

  // ---------------------------------------------------------------------------
  // One member

  lemma FieldsExtended(members: seq<Member>, n: nat, fields: seq<Entry>)
    requires n < |members| && FieldsOk(members, n, fields) && Starts(members[n])
    ensures FieldsOk(members, n + 1, fields + [Entry(Declared(members[n].name), n)])
  {
    var more := fields + [Entry(Declared(members[n].name), n)];
    forall i | 0 <= i < |more| ensures FieldOk(members, n + 1, more[i]) {
      assert i < |fields| ==> FieldOk(members, n, fields[i]);
    }
    forall i, j | 0 <= i < j < |more| ensures more[i].pos < more[j].pos {
      assert FieldOk(members, n, fields[i]);
    }
  }

  lemma FieldsLater(members: seq<Member>, n: nat, fields: seq<Entry>)
    requires n < |members| && FieldsOk(members, n, fields)
    ensures FieldsOk(members, n + 1, fields)
  {
    forall i | 0 <= i < |fields| ensures FieldOk(members, n + 1, fields[i]) {
      assert FieldOk(members, n, fields[i]);
    }
  }

  lemma CompleteNext(members: seq<Member>, n: nat, s: State, t: State)
    requires n < |members| && Complete(members, n, s) && Extends(s, t)
    requires Starts(members[n]) ==> HasField(t.fields, n)
    requires Continues(members[n]) ==> HasInfo(t.infos, n)
    ensures Complete(members, n + 1, t)
  {
    AddedComplete(members, n, s, t);
  }

  lemma FieldAdded(members: seq<Member>, n: nat, s: State, t: State)
    requires n < |members| && Recorded(members, n, s) && Starts(members[n])
    requires t == s.(inBitfield := false, fields := s.fields + [Entry(Declared(members[n].name), n)])
    ensures Recorded(members, n + 1, t)
  {
    hide FieldsOk, InfosOk, Complete;
    FieldsExtended(members, n, s.fields);
    InfosKept(members, n, s.fields, t.fields, s.infos);
    assert t.fields[|s.fields|].pos == n;
    CompleteNext(members, n, s, t);
    if s.infos != [] {
      LastInfoOk(members, n, s);
    }
    FieldAnchors(members, n, s.fields, s.infos, t.fields);
  }

  lemma FieldAnchors(members: seq<Member>, n: nat, fields: seq<Entry>, infos: seq<Info>, more: seq<Entry>)
    requires n <= |members| && InfosOk(members, n, fields, infos) && AllAnchored(members, fields, infos)
    requires |more| == |fields| + 1 && more[..|fields|] == fields && more[|fields|].pos == n
    ensures AllAnchored(members, more, infos)
  {
    assert forall i :: 0 <= i < |fields| ==> more[i] == more[..|fields|][i];
    forall i | 0 <= i < |infos| ensures Anchored(members, more, infos[i]) {
      assert InfoOk(members, n, fields, infos[i]) && Anchored(members, fields, infos[i]);
    }
  }

  lemma LastInfoOk(members: seq<Member>, n: nat, s: State)
    requires n <= |members| && Recorded(members, n, s) && s.infos != []
    ensures InfoOk(members, n, s.fields, s.infos[|s.infos| - 1])
  {
  }

  /** More fields do not disturb the groups. */
  lemma InfosKept(members: seq<Member>, n: nat, fields: seq<Entry>, more: seq<Entry>, infos: seq<Info>)
    requires n < |members| && InfosOk(members, n, fields, infos)
    requires |fields| <= |more| && forall i :: 0 <= i < |fields| && fields[i].name.Shared? ==> more[i] == fields[i]
    ensures InfosOk(members, n + 1, more, infos) && InfosOk(members, n, more, infos)
  {
    forall i | 0 <= i < |infos| ensures InfoOk(members, n + 1, more, infos[i]) && InfoOk(members, n, more, infos[i]) {
      assert InfoOk(members, n, fields, infos[i]);
    }
    forall j: nat | 0 < j < |infos| ensures LinkAt(more, infos, j) {
      assert LinkAt(fields, infos, j) && InfoOk(members, n, fields, infos[j])
        && InfoOk(members, n, fields, infos[j - 1]);
    }
  }

  /** Nothing recorded in `s` is missing in `t`. */
  ghost predicate Extends(s: State, t: State) {
    && |s.fields| <= |t.fields| && (forall i :: 0 <= i < |s.fields| ==> t.fields[i].pos == s.fields[i].pos)
    && |s.infos| <= |t.infos| && (forall i :: 0 <= i < |s.infos| ==> t.infos[i].pos == s.infos[i].pos)
  }

  lemma AddedComplete(members: seq<Member>, n: nat, s: State, t: State)
    requires n < |members| && Complete(members, n, s)
    requires Extends(s, t)
    ensures Complete(members, n, t)
  {
    forall k | 0 <= k < n && Starts(members[k]) ensures HasField(t.fields, k) {
      assert HasField(s.fields, k);
      var i :| 0 <= i < |s.fields| && s.fields[i].pos == k;
      assert t.fields[i].pos == k;
    }
    forall k | 0 <= k < n && Continues(members[k]) ensures HasInfo(t.infos, k) {
      assert HasInfo(s.infos, k);
      var i :| 0 <= i < |s.infos| && s.infos[i].pos == k;
      assert t.infos[i].pos == k;
    }
  }

  lemma Skipped(members: seq<Member>, n: nat, s: State)
    requires n < |members| && Recorded(members, n, s) && !Starts(members[n]) && !Continues(members[n])
    ensures Recorded(members, n + 1, s)
  {
    InfosKept(members, n, s.fields, s.fields, s.infos);
  }

  /** The last field turns out to have been a bitfield: it becomes the base of a new group. */
  lemma InfosOpened(members: seq<Member>, n: nat, fields: seq<Entry>, infos: seq<Info>, base: Info)
    requires n <= |members| && InfosOk(members, n, fields, infos) && InfoOk(members, n, fields, base)
    requires IsBase(fields, base) && base.endBit == 0
    requires infos != [] ==> Linked(fields, infos[|infos| - 1], base)
    ensures InfosOk(members, n, fields, infos + [base])
  {
    var more := infos + [base];
    forall j: nat | 0 < j < |more| ensures LinkAt(fields, more, j) {
      if j < |infos| {
        assert LinkAt(fields, infos, j);
      }
    }
  }

  lemma RenamedOk(members: seq<Member>, n: nat, fields: seq<Entry>, num: nat)
    requires n <= |members| && FieldsOk(members, n, fields) && fields != []
    ensures FieldsOk(members, n, fields[|fields| - 1 := Entry(Shared(num), fields[|fields| - 1].pos)])
  {
    forall i | 0 <= i < |fields| ensures FieldOk(members, n, fields[i]) {
    }
  }

  /** `t` is `s` with the last field made the base of a new group. */
  ghost predicate Opens(s: State, t: State) {
    && s.fields != []
    && var last := s.fields[|s.fields| - 1];
    && last.name.Declared?
    && t == State(s.fields[|s.fields| - 1 := Entry(Shared(s.bitfieldNum + 1), last.pos)], true, s.bitfieldNum + 1,
                  s.infos + [Info(|s.fields| - 1, last.name.name, 0, 0, last.pos)])
  }

  lemma OpenedInfos(members: seq<Member>, n: nat, s: State, t: State)
    requires n < |members| && Recorded(members, n, s) && !s.inBitfield && Opens(s, t)
    ensures InfosOk(members, n, t.fields, t.infos)
  {
    var f, m := |s.fields| - 1, |s.infos|;
    var base := t.infos[m];
    InfosKept(members, n, s.fields, t.fields, s.infos);
    assert FieldOk(members, n, s.fields[f]);
    if m > 0 {
      LastLinked(members, n, s, t.fields, base);
    }
    InfosOpened(members, n, t.fields, s.infos, base);
  }

  lemma GroupOpened(members: seq<Member>, n: nat, s: State, t: State)
    requires n < |members| && Recorded(members, n, s) && !s.inBitfield && Opens(s, t)
    ensures Recorded(members, n, t)
  {
    RenamedOk(members, n, s.fields, s.bitfieldNum + 1);
    OpenedInfos(members, n, s, t);
    OpenedComplete(members, n, s, t);
    OpenedAnchors(members, s, t);
  }

  lemma OpenedAnchors(members: seq<Member>, s: State, t: State)
    requires Opens(s, t) && AllAnchored(members, s.fields, s.infos)
    ensures AllAnchored(members, t.fields, t.infos)
  {
    forall i | 0 <= i < |t.infos| ensures Anchored(members, t.fields, t.infos[i]) {
      if i < |s.infos| {
        assert Anchored(members, s.fields, s.infos[i]);
      }
    }
  }

  lemma OpenedComplete(members: seq<Member>, n: nat, s: State, t: State)
    requires n < |members| && Complete(members, n, s) && s.fields != []
    requires t.fields == s.fields[|s.fields| - 1 := Entry(Shared(s.bitfieldNum + 1), s.fields[|s.fields| - 1].pos)]
    requires |t.infos| == |s.infos| + 1 && t.infos[..|s.infos|] == s.infos
    ensures Complete(members, n, t)
  {
    assert forall i :: 0 <= i < |s.infos| ==> t.infos[i] == t.infos[..|s.infos|][i];
    AddedComplete(members, n, s, t);
  }

  lemma LastLinked(members: seq<Member>, n: nat, s: State, fields: seq<Entry>, base: Info)
    requires n <= |members| && InfosOk(members, n, s.fields, s.infos) && OpenOk(s)
    requires !s.inBitfield && s.infos != [] && s.fields != [] && s.fields[|s.fields| - 1].name.Declared?
    requires base.field == |s.fields| - 1 && base.pos == s.fields[|s.fields| - 1].pos
    requires fields == s.fields[|s.fields| - 1 := Entry(Shared(s.bitfieldNum + 1), base.pos)]
    ensures Linked(fields, s.infos[|s.infos| - 1], base)
  {
    assert InfoOk(members, n, s.fields, s.infos[|s.infos| - 1]);
  }

  /** A member in the middle of a storage unit ends the entry before it. */
  lemma InfosExtended(members: seq<Member>, n: nat, fields: seq<Entry>, infos: seq<Info>, more: seq<Info>)
    requires n < |members| && InfosOk(members, n, fields, infos) && infos != [] && members[n].rem != 0
    requires var last := infos[|infos| - 1];
      more == infos[|infos| - 1 := last.(endBit := members[n].rem)] +
        [Info(last.field, members[n].name, members[n].rem, 0, n)]
    ensures InfosOk(members, n + 1, fields, more)
  {
    var m := |infos|;
    assert InfoOk(members, n, fields, infos[m - 1]);
    forall i | 0 <= i < |more| ensures InfoOk(members, n + 1, fields, more[i]) {
      if i < m {
        assert InfoOk(members, n, fields, infos[i]);
      }
    }
    forall j: nat | 0 < j < |more| ensures LinkAt(fields, more, j) {
      if j < m {
        assert LinkAt(fields, infos, j);
      }
    }
  }

  lemma GroupExtended(members: seq<Member>, n: nat, s: State, t: State)
    requires n < |members| && Recorded(members, n, s) && s.inBitfield && Continues(members[n])
    requires var last, r := |s.infos| - 1, members[n].rem;
      t == s.(infos := s.infos[last := s.infos[last].(endBit := r)] + [Info(|s.fields| - 1, members[n].name, r, 0, n)])
    ensures Recorded(members, n + 1, t)
  {
    hide FieldsOk, InfosOk, Complete, AllAnchored;
    FieldsLater(members, n, s.fields);
    InfosExtended(members, n, s.fields, s.infos, t.infos);
    assert t.infos[|s.infos|].pos == n;
    CompleteNext(members, n, s, t);
    ExtendedAnchors(members, n, s, t.infos);
  }

  lemma ExtendedAnchors(members: seq<Member>, n: nat, s: State, more: seq<Info>)
    requires n < |members| && Continues(members[n]) && AllAnchored(members, s.fields, s.infos)
    requires |more| == |s.infos| + 1 && more[|s.infos|].pos == n && more[|s.infos|].field + 1 >= |s.fields|
    requires forall i :: 0 <= i < |s.infos| ==> more[i].pos == s.infos[i].pos && more[i].field == s.infos[i].field
    ensures AllAnchored(members, s.fields, more)
  {
    forall i | 0 <= i < |more| ensures Anchored(members, s.fields, more[i]) {
      if i < |s.infos| {
        assert Anchored(members, s.fields, s.infos[i]);
      }
    }
  }

  // ---------------------------------------------------------------------------
  // The visitor

  class StructVisitor {
    var fieldList: seq<Entry>
    var inBitfield: bool
    var bitfieldNum: nat
    var bitfieldList: seq<Info>
    var errors: seq<nat>

    ghost function Lists(): State
      reads this
    {
      State(fieldList, inBitfield, bitfieldNum, bitfieldList)
    }

    constructor ()
      ensures Lists() == State([], false, 0, []) && errors == []
    {
      fieldList, inBitfield, bitfieldNum, bitfieldList, errors := [], false, 0, [], [];
    }

    /** Visits member `pos` of a struct. The access to the previous field fails when there is none. */
    method Visit(d: Decl, pos: nat, ghost members: seq<Member>) returns (failed: bool)
      requires d.align > 0 && pos < |members| && members[pos] == MemberOf(d) && Recorded(members, pos, Lists())
      requires Paired(bitfieldList)
      modifies this
      ensures failed <==> Orphan(members, pos)
      ensures !failed ==> Recorded(members, pos + 1, Lists()) && Paired(bitfieldList)
      ensures errors == old(errors) + (if d.name != "" && members[pos].rem != 0 && !d.isBitField then [pos] else [])
    {
      hide Recorded, PairedAt;
      if d.name == "" {
        Skipped(members, pos, Lists());
        return false;
      }
      var bitfieldOffset := d.offset % d.align;
      if bitfieldOffset != 0 {
        if !d.isBitField {
          Skipped(members, pos, Lists());
          errors := errors + [pos];
          return false;
        }
        NoFieldsMeansNoStart(members, pos, Lists());
        if |fieldList| == 0 {
          return true;
        }
        if !inBitfield {
          OpenGroup(pos, members);
        }
        ExtendGroup(d.name, bitfieldOffset, pos, members);
        return false;
      }
      AddField(d.name, pos, members);
      return false;
    }

    /** The previous bitfield ends where this one begins. */
    method ExtendGroup(name: string, bitfieldOffset: nat, pos: nat, ghost members: seq<Member>)
      requires pos < |members| && Recorded(members, pos, Lists()) && inBitfield
      requires Continues(members[pos]) && members[pos].name == name && members[pos].rem == bitfieldOffset
      requires PairedBut(bitfieldList)
      modifies this
      ensures Recorded(members, pos + 1, Lists()) && Paired(bitfieldList) && errors == old(errors)
    {
      hide FieldsOk, Complete, AllAnchored;
      ghost var before := Lists();
      var last := |bitfieldList| - 1;
      bitfieldList := bitfieldList[last := bitfieldList[last].(endBit := bitfieldOffset)];
      bitfieldList := bitfieldList + [Info(|fieldList| - 1, name, bitfieldOffset, 0, pos)];
      GroupExtended(members, pos, before, Lists());
      PairedExtends(before.infos, bitfieldList);
    }

    method AddField(name: string, pos: nat, ghost members: seq<Member>)
      requires pos < |members| && Recorded(members, pos, Lists()) && Starts(members[pos]) && members[pos].name == name
      modifies this
      ensures Recorded(members, pos + 1, Lists()) && errors == old(errors) && bitfieldList == old(bitfieldList)
    {
      ghost var before := Lists();
      inBitfield := false;
      fieldList := fieldList + [Entry(Declared(name), pos)];
      FieldAdded(members, pos, before, Lists());
    }

    /** The previous element was a bitfield too, but was not noticed then. */
    method OpenGroup(pos: nat, ghost members: seq<Member>)
      requires pos < |members| && Recorded(members, pos, Lists()) && !inBitfield && fieldList != []
      requires Paired(bitfieldList)
      modifies this
      ensures Recorded(members, pos, Lists()) && inBitfield && |fieldList| == |old(fieldList)| && errors == old(errors)
      ensures PairedBut(bitfieldList)
    {
      hide FieldOk, InfoOk, LinkAt, AllAnchored, Complete;
      ghost var before := Lists();
      bitfieldNum := bitfieldNum + 1;
      inBitfield := true;
      var prev := |fieldList| - 1;
      bitfieldList := bitfieldList + [Info(prev, fieldList[prev].name.name, 0, 0, fieldList[prev].pos)];
      fieldList := fieldList[prev := Entry(Shared(bitfieldNum), fieldList[prev].pos)];
      GroupOpened(members, pos, before, Lists());
      PairedOpens(before.infos, bitfieldList[|before.infos|]);
    }
  }

  ghost predicate ValidDecls(decls: seq<Decl>) {
    forall i :: 0 <= i < |decls| ==>
      && decls[i].align > 0 && decls[i].bits <= decls[i].typeBits
      && (decls[i].isBitField && decls[i].name != "" ==> decls[i].bits > 0)
  }

  function MembersOf(decls: seq<Decl>): (members: seq<Member>)
    requires ValidDecls(decls)
    ensures |members| == |decls|
  {
    seq(|decls|, i requires 0 <= i < |decls| => MemberOf(decls[i]))
  }

  /** What the visitor's lists are once it has visited the declarations. */
  ghost predicate Visited(decls: seq<Decl>, s: State)
    requires ValidDecls(decls)
  {
    Recorded(MembersOf(decls), |decls|, s) && Paired(s.infos)
  }

  /** A bitfield in the middle of a unit with no field before it, as after an unnamed bitfield. */
  ghost predicate Orphan(members: seq<Member>, k: nat) {
    k < |members| && Continues(members[k]) && forall j :: 0 <= j < k ==> !Starts(members[j])
  }

  lemma NoFieldsMeansNoStart(members: seq<Member>, n: nat, s: State)
    requires n < |members| && Recorded(members, n, s) && Continues(members[n])
    ensures s.fields == [] <==> Orphan(members, n)
  {
    forall j | 0 <= j < n && Starts(members[j]) ensures s.fields != [] {
      assert HasField(s.fields, j);
    }
    if s.fields != [] {
      assert FieldOk(members, n, s.fields[0]);
    }
  }

  lemma NothingRecorded(members: seq<Member>)
    ensures Recorded(members, 0, State([], false, 0, []))
  {
  }

  /** Visits all members of a struct; the lists that come out are as Visited says, and the visit
      fails exactly when some bitfield has no field to share. */
  method VisitStruct(decls: seq<Decl>) returns (failed: bool, v: StructVisitor)
    requires ValidDecls(decls)
    ensures failed <==> exists k: nat :: Orphan(MembersOf(decls), k)
    ensures !failed ==> Visited(decls, v.Lists())
  {
    v := new StructVisitor();
    failed := false;
    hide Recorded, PairedAt;
    ghost var members := MembersOf(decls);
    NothingRecorded(members);
    ghost var lists := v.Lists();
    for i := 0 to |decls|
      invariant lists == v.Lists() && Recorded(members, i, lists) && Paired(lists.infos) && fresh(v)
      invariant forall k: nat :: k < i ==> !Orphan(members, k)
    {
      failed := v.Visit(decls[i], i, members);
      if failed {
        return;
      }
      lists := v.Lists();
    }
  }

  // ---------------------------------------------------------------------------
  // What the groups are worth

  /** A maximal run of entries with the same base field. */
  ghost predicate Run(infos: seq<Info>, lo: nat, hi: nat) {
    && lo < hi <= |infos|
    && (forall i :: lo <= i < hi ==> infos[i].field == infos[lo].field)
    && (hi < |infos| ==> infos[hi].field != infos[lo].field)
  }

  function BitfieldsOf(infos: seq<Info>, lo: nat, hi: nat): seq<Bitfield>
    requires lo <= hi <= |infos|
  {
    seq(hi - lo, i requires 0 <= i < hi - lo => Bitfield(infos[lo + i].startBit, infos[lo + i].endBit))
  }

  lemma PositionsValid(members: seq<Member>, s: State)
    requires Recorded(members, |members|, s)
    ensures forall i :: 0 <= i < |s.infos| ==> s.infos[i].pos < |members|
  {
    forall i | 0 <= i < |s.infos| ensures s.infos[i].pos < |members| {
      assert InfoOk(members, |members|, s.fields, s.infos[i]);
    }
  }

  /** The offsets in their storage units of the members of a run. */
  function Offsets(members: seq<Member>, infos: seq<Info>, lo: nat, hi: nat): seq<int>
    requires lo <= hi <= |infos| && forall i :: 0 <= i < |infos| ==> infos[i].pos < |members|
  {
    seq(hi - lo, i requires 0 <= i < hi - lo => members[infos[lo + i].pos].rem)
  }

  ghost predicate IncreasingBelow(offsets: seq<int>, w: nat) {
    && (forall i :: 0 <= i < |offsets| ==> offsets[i] < w)
    && (forall i, j :: 0 <= i < j < |offsets| ==> offsets[i] < offsets[j])
  }

  /** Each field begins at the recorded offset and ends where the next one begins. */
  ghost predicate Chained(bs: seq<Bitfield>, offsets: seq<int>) {
    && |bs| == |offsets| > 0 && bs[|bs| - 1].endBit == 0
    && (forall i :: 0 <= i < |bs| ==> bs[i].startBit == offsets[i])
    && (forall i, j :: 0 <= i && j == i + 1 && j < |bs| ==> bs[i].endBit == bs[j].startBit)
  }

  lemma ChainedIsGroup(bs: seq<Bitfield>, offsets: seq<int>, w: nat)
    requires Chained(bs, offsets)
    ensures Group(bs, w) <==> IncreasingBelow(offsets, w)
  {
    if IncreasingBelow(offsets, w) {
      forall i | 0 <= i < |bs| ensures Fits(bs[i], w) {
        var j := i + 1;
        if j < |bs| {
          assert bs[i].endBit == bs[j].startBit && offsets[i] < offsets[j] < w;
        }
      }
    }
    if Group(bs, w) {
      forall i | 0 <= i < |offsets| ensures offsets[i] < w {
        assert Fits(bs[i], w);
      }
      forall i, j | 0 <= i < j < |offsets| ensures offsets[i] < offsets[j] {
        assert bs[i].startBit < bs[j].startBit;
      }
    }
  }

  lemma RunStarts(members: seq<Member>, s: State, lo: nat, hi: nat, i: nat)
    requires Recorded(members, |members|, s) && Run(s.infos, lo, hi) && i < hi - lo
    requires forall i :: 0 <= i < |s.infos| ==> s.infos[i].pos < |members|
    ensures BitfieldsOf(s.infos, lo, hi)[i].startBit == Offsets(members, s.infos, lo, hi)[i]
  {
    assert InfoOk(members, |members|, s.fields, s.infos[lo + i]);
  }

  /** Where entry `i` of a run ends. */
  lemma RunEnds(members: seq<Member>, s: State, lo: nat, hi: nat, i: nat)
    requires Recorded(members, |members|, s) && Run(s.infos, lo, hi) && lo <= i < hi
    ensures s.infos[i].endBit == if i + 1 < hi then s.infos[i + 1].startBit else 0
  {
    if i + 1 < |s.infos| {
      assert LinkAt(s.fields, s.infos, i + 1);
      assert s.infos[i].field == s.infos[lo].field;
    }
  }

  lemma RunChained(members: seq<Member>, s: State, lo: nat, hi: nat)
    requires Recorded(members, |members|, s) && Run(s.infos, lo, hi)
    requires forall i :: 0 <= i < |s.infos| ==> s.infos[i].pos < |members|
    ensures Chained(BitfieldsOf(s.infos, lo, hi), Offsets(members, s.infos, lo, hi))
  {
    hide Recorded;
    var bs, offsets := BitfieldsOf(s.infos, lo, hi), Offsets(members, s.infos, lo, hi);
    forall i | 0 <= i < |bs| ensures bs[i].startBit == offsets[i] {
      RunStarts(members, s, lo, hi, i);
    }
    forall i, j | 0 <= i && j == i + 1 && j < |bs| ensures bs[i].endBit == bs[j].startBit {
      RunEnds(members, s, lo, hi, lo + i);
    }
    RunEnds(members, s, lo, hi, hi - 1);
  }

  /** A run of entries satisfies the premise of the lens laws exactly when the offsets of its
      members in their storage units increase and lie in the base field. */
  lemma RunIsGroup(members: seq<Member>, s: State, lo: nat, hi: nat, w: nat)
    requires Recorded(members, |members|, s) && Run(s.infos, lo, hi)
    requires forall i :: 0 <= i < |s.infos| ==> s.infos[i].pos < |members|
    ensures Group(BitfieldsOf(s.infos, lo, hi), w) <==> IncreasingBelow(Offsets(members, s.infos, lo, hi), w)
  {
    RunChained(members, s, lo, hi);
    ChainedIsGroup(BitfieldsOf(s.infos, lo, hi), Offsets(members, s.infos, lo, hi), w);
  }

  // ---------------------------------------------------------------------------
  // The recorded bits and the true bits

  /** The field that member `k` belongs to begins at member `b`. */
  ghost predicate BaseAt(members: seq<Member>, k: nat, b: nat) {
    && b <= k < |members| && Starts(members[b])
    && forall j :: b < j <= k ==> !Starts(members[j])
  }

  ghost predicate Kept(m: Member) {
    Starts(m) || Continues(m)
  }

  /** Member `p` is the last one before `k` that is not left out. */
  ghost predicate PrevAt(members: seq<Member>, k: nat, p: nat) {
    && p < k < |members| && Kept(members[p])
    && forall j :: p < j < k ==> !Kept(members[j])
  }

  /** No bitfield after member `k` continues the same field. */
  ghost predicate LastInField(members: seq<Member>, k: nat) {
    forall j :: k < j < |members| && Continues(members[j]) ==> exists m :: k < m < j && Starts(members[m])
  }

  /** The condition on the declarations: the storage unit of every continuing bitfield begins where
      its field begins, each bitfield begins where the one before it ends, and the last one ends
      inside the field. */
  ghost predicate WellLaid(decls: seq<Decl>)
    requires ValidDecls(decls)
  {
    var members := MembersOf(decls);
    forall k: nat, b: nat, p: nat ::
      k < |decls| && Continues(members[k]) && BaseAt(members, k, b) && PrevAt(members, k, p) ==>
      LaidAt(decls, k, b, p) && (LastInField(members, k) ==> EndsInside(decls, k, b))
  }

  ghost predicate LaidAt(decls: seq<Decl>, k: nat, b: nat, p: nat)
    requires ValidDecls(decls) && k < |decls| && b < |decls| && p < |decls|
  {
    UnitStart(decls[k]) == decls[b].offset && decls[p].offset + decls[p].bits == decls[k].offset
  }

  ghost predicate EndsInside(decls: seq<Decl>, k: nat, b: nat)
    requires k < |decls| && b < |decls|
  {
    decls[k].offset + decls[k].bits <= decls[b].offset + decls[b].typeBits
  }

  function UnitStart(d: Decl): int
    requires d.align > 0
  {
    d.offset - d.offset % d.align
  }

  // Where an entry stands among the declarations.

  lemma {:induction false} InfosInOrder(members: seq<Member>, s: State, i: nat, j: nat)
    requires Recorded(members, |members|, s) && i < j < |s.infos|
    ensures s.infos[i].pos < s.infos[j].pos && s.infos[i].field <= s.infos[j].field
    decreases j - i
  {
    hide FieldsOk, Complete, AllAnchored, OpenOk;
    assert LinkAt(s.fields, s.infos, j);
    if i < j - 1 {
      InfosInOrder(members, s, i, j - 1);
    }
  }

  lemma NoFieldBetween(members: seq<Member>, s: State, i: nat, m: nat)
    requires Recorded(members, |members|, s) && i < |s.infos| && m < |s.fields|
    ensures s.infos[i].field < |s.fields|
    ensures s.fields[s.infos[i].field].pos < s.fields[m].pos ==> s.infos[i].pos < s.fields[m].pos
  {
    var e := s.infos[i];
    assert InfoOk(members, |members|, s.fields, e) && Anchored(members, s.fields, e);
    if m < e.field {
      assert s.fields[m].pos < s.fields[e.field].pos;
    }
  }

  lemma InfoBase(members: seq<Member>, s: State, i: nat)
    requires Recorded(members, |members|, s) && i < |s.infos|
    ensures s.infos[i].field < |s.fields| && BaseAt(members, s.infos[i].pos, s.fields[s.infos[i].field].pos)
  {
    var e := s.infos[i];
    assert InfoOk(members, |members|, s.fields, e);
    var b := s.fields[e.field].pos;
    assert FieldOk(members, |members|, s.fields[e.field]);
    forall j | b < j <= e.pos ensures !Starts(members[j]) {
      if Starts(members[j]) {
        assert HasField(s.fields, j);
        var m :| 0 <= m < |s.fields| && s.fields[m].pos == j;
        NoFieldBetween(members, s, i, m);
      }
    }
  }

  lemma BaseUnique(members: seq<Member>, k: nat, b: nat, c: nat)
    requires BaseAt(members, k, b) && BaseAt(members, k, c)
    ensures b == c
  {
  }

  lemma PrevUnique(members: seq<Member>, k: nat, p: nat, q: nat)
    requires PrevAt(members, k, p) && PrevAt(members, k, q)
    ensures p == q
  {
  }

  lemma InfoKept(members: seq<Member>, s: State, i: nat)
    requires Recorded(members, |members|, s) && i < |s.infos|
    ensures s.infos[i].pos < |members| && Kept(members[s.infos[i].pos])
    ensures SameField(s.infos, i) <==> Continues(members[s.infos[i].pos])
  {
    var e := s.infos[i];
    assert InfoOk(members, |members|, s.fields, e) && Anchored(members, s.fields, e);
    assert FieldOk(members, |members|, s.fields[e.field]);
    if i > 0 {
      assert LinkAt(s.fields, s.infos, i);
    }
  }

  lemma InfoPrev(members: seq<Member>, s: State, i: nat)
    requires Recorded(members, |members|, s) && SameField(s.infos, i)
    ensures PrevAt(members, s.infos[i].pos, s.infos[i - 1].pos)
  {
    hide Recorded;
    var p, k := s.infos[i - 1].pos, s.infos[i].pos;
    InfosInOrder(members, s, i - 1, i);
    InfoKept(members, s, i - 1);
    InfoKept(members, s, i);
    InfoBase(members, s, i);
    InfoBase(members, s, i - 1);
    forall j | p < j < k ensures !Kept(members[j]) {
      if Continues(members[j]) {
        NotSkipped(members, s, i, j);
      }
    }
  }

  lemma InfoOf(members: seq<Member>, s: State, j: nat) returns (q: nat)
    requires Recorded(members, |members|, s) && j < |members| && Continues(members[j])
    ensures q < |s.infos| && s.infos[q].pos == j
  {
    hide FieldsOk, InfosOk, OpenOk, AllAnchored;
    assert HasInfo(s.infos, j);
    q :| 0 <= q < |s.infos| && s.infos[q].pos == j;
  }

  lemma NotSkipped(members: seq<Member>, s: State, i: nat, j: nat)
    requires Recorded(members, |members|, s) && 0 < i < |s.infos| && j < |members| && Continues(members[j])
    ensures j <= s.infos[i - 1].pos || s.infos[i].pos <= j
  {
    hide Recorded;
    var q := InfoOf(members, s, j);
    if q < i - 1 {
      InfosInOrder(members, s, q, i - 1);
    }
    if q > i {
      InfosInOrder(members, s, i, q);
    }
  }

  /** The entry after which another field begins, or the list ends, is the last of its field. */
  lemma InfoLast(members: seq<Member>, s: State, i: nat)
    requires Recorded(members, |members|, s) && i < |s.infos|
    ensures LastInField(members, s.infos[i].pos) <==> !SameField(s.infos, i + 1)
  {
    if SameField(s.infos, i + 1) {
      NextContinues(members, s, i);
    } else {
      forall j | s.infos[i].pos < j < |members| && Continues(members[j])
        ensures exists m :: s.infos[i].pos < m < j && Starts(members[m])
      {
        FieldAfter(members, s, i, j);
      }
    }
  }

  lemma NextContinues(members: seq<Member>, s: State, i: nat)
    requires Recorded(members, |members|, s) && SameField(s.infos, i + 1)
    ensures !LastInField(members, s.infos[i].pos)
  {
    var j := s.infos[i + 1].pos;
    InfoPrev(members, s, i + 1);
    InfoKept(members, s, i + 1);
    assert Continues(members[j]);
  }

  lemma FieldAfter(members: seq<Member>, s: State, i: nat, j: nat)
    requires Recorded(members, |members|, s) && i < |s.infos| && !SameField(s.infos, i + 1)
    requires s.infos[i].pos < j < |members| && Continues(members[j])
    ensures exists m :: s.infos[i].pos < m < j && Starts(members[m])
  {
    hide Recorded;
    var q := InfoOf(members, s, j);
    if q < i {
      InfosInOrder(members, s, q, i);
    }
    assert q > i;
    InfosInOrder(members, s, i, i + 1);
    if i + 1 < q {
      InfosInOrder(members, s, i + 1, q);
    }
    InfoBase(members, s, q);
    var b := s.fields[s.infos[q].field].pos;
    FieldsBehind(members, s, i, s.infos[q].field);
    assert s.infos[i].pos < b < j && Starts(members[b]);
  }

  lemma FieldsBehind(members: seq<Member>, s: State, i: nat, m: nat)
    requires Recorded(members, |members|, s) && i < |s.infos| && s.infos[i].field < m < |s.fields|
    ensures s.infos[i].pos < s.fields[m].pos
  {
    hide FieldsOk, InfosOk, OpenOk, Complete;
    assert Anchored(members, s.fields, s.infos[i]);
  }

  /** Entry `i` begins where its member begins, counted from the beginning of its field, and ends
      where the member ends, or is the last of its field and runs to the end of the field, which
      holds the member. */
  ghost predicate Placed(decls: seq<Decl>, s: State, i: nat)
    requires i < |s.infos|
  {
    var e := s.infos[i];
    && e.pos < |decls| && e.field < |s.fields| && s.fields[e.field].pos < |decls|
    && var d, base := decls[e.pos], decls[s.fields[e.field].pos];
       && e.startBit == d.offset - base.offset
       && if e.endBit != 0 then e.endBit == d.offset + d.bits - base.offset
          else d.offset + d.bits <= base.offset + base.typeBits
  }

  lemma {:induction false} StartIsTrue(decls: seq<Decl>, s: State, i: nat)
    requires ValidDecls(decls) && Recorded(MembersOf(decls), |decls|, s) && i < |s.infos|
    ensures var e := s.infos[i];
      && e.pos < |decls| && e.field < |s.fields| && s.fields[e.field].pos < |decls|
      && var d, base := decls[e.pos], decls[s.fields[e.field].pos];
         (e.startBit == d.offset - base.offset <==> UnitStart(d) == base.offset)
  {
    var members := MembersOf(decls);
    assert InfoOk(members, |decls|, s.fields, s.infos[i]);
    assert members[s.infos[i].pos] == MemberOf(decls[s.infos[i].pos]);
  }

  lemma PlacedIsLaid(decls: seq<Decl>, s: State, i: nat)
    requires ValidDecls(decls) && Recorded(MembersOf(decls), |decls|, s) && SameField(s.infos, i)
    requires Placed(decls, s, i - 1) && Placed(decls, s, i)
    ensures LaidAt(decls, s.infos[i].pos, s.fields[s.infos[i].field].pos, s.infos[i - 1].pos)
  {
    StartIsTrue(decls, s, i);
    assert LinkAt(s.fields, s.infos, i);
  }

  /** Every bitfield the visitor records is where its member is if and only if the declarations are
      laid out unit by unit without gaps. */
  lemma PlacedIffWellLaid(decls: seq<Decl>, s: State)
    requires ValidDecls(decls) && Recorded(MembersOf(decls), |decls|, s)
    ensures (forall i :: 0 <= i < |s.infos| ==> Placed(decls, s, i)) <==> WellLaid(decls)
  {
    if forall i :: 0 <= i < |s.infos| ==> Placed(decls, s, i) {
      AllPlacedIsWellLaid(decls, s);
    }
    if WellLaid(decls) {
      forall i | 0 <= i < |s.infos| ensures Placed(decls, s, i) {
        WellLaidIsPlaced(decls, s, i);
      }
    }
  }

  lemma AllPlacedIsWellLaid(decls: seq<Decl>, s: State)
    requires ValidDecls(decls) && Recorded(MembersOf(decls), |decls|, s)
    requires forall i :: 0 <= i < |s.infos| ==> Placed(decls, s, i)
    ensures WellLaid(decls)
  {
    var members := MembersOf(decls);
    forall k: nat, b: nat, p: nat |
        k < |decls| && Continues(members[k]) && BaseAt(members, k, b) && PrevAt(members, k, p)
      ensures LaidAt(decls, k, b, p) && (LastInField(members, k) ==> EndsInside(decls, k, b))
    {
      assert HasInfo(s.infos, k);
      var i: nat :| i < |s.infos| && s.infos[i].pos == k;
      PlacedHere(decls, s, i, b, p);
    }
  }

  lemma PlacedHere(decls: seq<Decl>, s: State, i: nat, b: nat, p: nat)
    requires ValidDecls(decls) && Recorded(MembersOf(decls), |decls|, s) && i < |s.infos|
    requires forall i :: 0 <= i < |s.infos| ==> Placed(decls, s, i)
    requires var k := s.infos[i].pos;
      k < |decls| && Continues(MembersOf(decls)[k]) && BaseAt(MembersOf(decls), k, b) && PrevAt(MembersOf(decls), k, p)
    ensures var k := s.infos[i].pos;
      LaidAt(decls, k, b, p) && (LastInField(MembersOf(decls), k) ==> EndsInside(decls, k, b))
  {
    var members, k := MembersOf(decls), s.infos[i].pos;
    hide Recorded;
    InfoKept(members, s, i);
    InfoPrev(members, s, i);
    PrevUnique(members, k, p, s.infos[i - 1].pos);
    InfoBase(members, s, i);
    BaseUnique(members, k, b, s.fields[s.infos[i].field].pos);
    PlacedIsLaid(decls, s, i);
    InfoLast(members, s, i);
    EndOfInfo(members, s, i);
  }

  /** An entry has a recorded end exactly when another follows in the same field. */
  lemma EndOfInfo(members: seq<Member>, s: State, i: nat)
    requires Recorded(members, |members|, s) && i < |s.infos|
    ensures SameField(s.infos, i + 1) ==> s.infos[i].endBit == s.infos[i + 1].startBit != 0
    ensures !SameField(s.infos, i + 1) ==> s.infos[i].endBit == 0
  {
    if i + 1 < |s.infos| {
      assert LinkAt(s.fields, s.infos, i + 1);
    }
  }

  lemma LaidHere(decls: seq<Decl>, s: State, i: nat)
    requires ValidDecls(decls) && Recorded(MembersOf(decls), |decls|, s) && SameField(s.infos, i) && WellLaid(decls)
    ensures s.infos[i].pos < |decls| && s.infos[i].field < |s.fields| && s.fields[s.infos[i].field].pos < |decls|
    ensures s.infos[i - 1].pos < |decls|
    ensures LaidAt(decls, s.infos[i].pos, s.fields[s.infos[i].field].pos, s.infos[i - 1].pos)
    ensures !SameField(s.infos, i + 1) ==> EndsInside(decls, s.infos[i].pos, s.fields[s.infos[i].field].pos)
  {
    var members := MembersOf(decls);
    InfoKept(members, s, i);
    InfoPrev(members, s, i);
    InfoBase(members, s, i);
    InfoLast(members, s, i);
  }

  lemma WellLaidIsPlaced(decls: seq<Decl>, s: State, i: nat)
    requires ValidDecls(decls) && Recorded(MembersOf(decls), |decls|, s) && i < |s.infos| && WellLaid(decls)
    ensures Placed(decls, s, i)
  {
    var members := MembersOf(decls);
    hide Recorded, WellLaid, UnitStart, MembersOf;
    StartIsTrue(decls, s, i);
    EndOfInfo(members, s, i);
    if SameField(s.infos, i) {
      LaidHere(decls, s, i);
    } else {
      BaseEntry(decls, s, i);
    }
    if SameField(s.infos, i + 1) {
      LaidHere(decls, s, i + 1);
      StartIsTrue(decls, s, i + 1);
    }
  }

  /** An entry that does not continue a field is the one the field was made for. */
  lemma BaseEntry(decls: seq<Decl>, s: State, i: nat)
    requires ValidDecls(decls) && Recorded(MembersOf(decls), |decls|, s) && i < |s.infos| && !SameField(s.infos, i)
    ensures s.infos[i].field < |s.fields| && s.infos[i].pos == s.fields[s.infos[i].field].pos < |decls|
    ensures s.infos[i].startBit == 0 && decls[s.infos[i].pos].bits <= decls[s.infos[i].pos].typeBits
  {
    var members := MembersOf(decls);
    InfoKept(members, s, i);
    assert Anchored(members, s.fields, s.infos[i]) && InfoOk(members, |decls|, s.fields, s.infos[i]);
  }

  // With well laid declarations the accessors obey the lens laws and read the true members.

  lemma {:induction false} PlacedIncreases(decls: seq<Decl>, s: State, lo: nat, hi: nat, i: nat, j: nat)
    requires ValidDecls(decls) && Recorded(MembersOf(decls), |decls|, s) && WellLaid(decls)
    requires Run(s.infos, lo, hi) && lo <= i < j < hi
    ensures s.infos[i].startBit < s.infos[j].startBit
    decreases j - i
  {
    hide Recorded, WellLaid, MembersOf;
    assert SameField(s.infos, j);
    PlacedNext(decls, s, j - 1);
    if i < j - 1 {
      PlacedIncreases(decls, s, lo, hi, i, j - 1);
    }
  }

  lemma PlacedNext(decls: seq<Decl>, s: State, i: nat)
    requires ValidDecls(decls) && Recorded(MembersOf(decls), |decls|, s) && WellLaid(decls) && SameField(s.infos, i + 1)
    ensures s.infos[i].startBit < s.infos[i + 1].startBit
  {
    var members := MembersOf(decls);
    hide Recorded, WellLaid, MembersOf, ValidDecls;
    PlacedEnd(decls, s, i);
    if SameField(s.infos, i) {
      InfoKept(members, s, i);
      ContinuingBits(decls, s.infos[i].pos);
    } else {
      BaseEntry(decls, s, i);
      EndOfInfo(members, s, i);
    }
  }

  lemma PlacedEnd(decls: seq<Decl>, s: State, i: nat)
    requires ValidDecls(decls) && Recorded(MembersOf(decls), |decls|, s) && WellLaid(decls) && SameField(s.infos, i + 1)
    ensures s.infos[i].pos < |decls|
    ensures s.infos[i].startBit + decls[s.infos[i].pos].bits == s.infos[i + 1].startBit
  {
    hide Recorded, WellLaid, MembersOf, ValidDecls;
    EndOfInfo(MembersOf(decls), s, i);
    WellLaidIsPlaced(decls, s, i);
  }

  lemma ContinuingBits(decls: seq<Decl>, k: nat)
    requires ValidDecls(decls) && k < |decls| && Continues(MembersOf(decls)[k])
    ensures decls[k].bits > 0
  {
    assert MembersOf(decls)[k] == MemberOf(decls[k]);
  }

  lemma LastInside(decls: seq<Decl>, s: State, lo: nat, hi: nat)
    requires ValidDecls(decls) && Recorded(MembersOf(decls), |decls|, s) && WellLaid(decls)
    requires Run(s.infos, lo, hi)
    requires s.infos[lo].field < |s.fields| && s.fields[s.infos[lo].field].pos < |decls|
    requires decls[s.fields[s.infos[lo].field].pos].typeBits > 0
    ensures s.infos[hi - 1].startBit < decls[s.fields[s.infos[lo].field].pos].typeBits
  {
    var members, last := MembersOf(decls), hi - 1;
    hide Recorded, WellLaid, ValidDecls;
    assert s.infos[last].field == s.infos[lo].field && !SameField(s.infos, hi);
    WellLaidIsPlaced(decls, s, last);
    EndOfInfo(members, s, last);
    if SameField(s.infos, last) {
      InfoKept(members, s, last);
      ContinuingBits(decls, s.infos[last].pos);
    } else {
      BaseEntry(decls, s, last);
    }
  }

  /** Every entry begins inside its field. */
  lemma PlacedInside(decls: seq<Decl>, s: State, lo: nat, hi: nat, i: nat)
    requires ValidDecls(decls) && Recorded(MembersOf(decls), |decls|, s) && WellLaid(decls)
    requires Run(s.infos, lo, hi) && lo <= i < hi
    requires s.infos[lo].field < |s.fields| && s.fields[s.infos[lo].field].pos < |decls|
    requires decls[s.fields[s.infos[lo].field].pos].typeBits > 0
    ensures s.infos[i].startBit < decls[s.fields[s.infos[lo].field].pos].typeBits
  {
    hide Recorded, WellLaid, ValidDecls, Run;
    LastInside(decls, s, lo, hi);
    if i < hi - 1 {
      PlacedIncreases(decls, s, lo, hi, i, hi - 1);
    }
  }

  lemma WellLaidRunIsGroup(decls: seq<Decl>, s: State, lo: nat, hi: nat, w: nat)
    requires ValidDecls(decls) && Recorded(MembersOf(decls), |decls|, s) && WellLaid(decls)
    requires Run(s.infos, lo, hi) && w > 0
    requires s.infos[lo].field < |s.fields| && s.fields[s.infos[lo].field].pos < |decls|
    requires w == decls[s.fields[s.infos[lo].field].pos].typeBits
    ensures Group(BitfieldsOf(s.infos, lo, hi), w)
  {
    var members := MembersOf(decls);
    hide Recorded, WellLaid, Group;
    PositionsValid(members, s);
    WellLaidIncreases(decls, s, lo, hi, w);
    RunIsGroup(members, s, lo, hi, w);
  }

  lemma WellLaidIncreases(decls: seq<Decl>, s: State, lo: nat, hi: nat, w: nat)
    requires ValidDecls(decls) && Recorded(MembersOf(decls), |decls|, s) && WellLaid(decls)
    requires Run(s.infos, lo, hi) && w > 0
    requires s.infos[lo].field < |s.fields| && s.fields[s.infos[lo].field].pos < |decls|
    requires w == decls[s.fields[s.infos[lo].field].pos].typeBits
    requires forall i :: 0 <= i < |s.infos| ==> s.infos[i].pos < |MembersOf(decls)|
    ensures IncreasingBelow(Offsets(MembersOf(decls), s.infos, lo, hi), w)
  {
    hide Recorded, WellLaid, ValidDecls;
    var offsets := Offsets(MembersOf(decls), s.infos, lo, hi);
    forall i | 0 <= i < |offsets| ensures offsets[i] < w {
      OffsetInside(decls, s, lo, hi, i);
    }
    forall i, j | 0 <= i < j < |offsets| ensures offsets[i] < offsets[j] {
      OffsetInside(decls, s, lo, hi, i);
      OffsetInside(decls, s, lo, hi, j);
      PlacedIncreases(decls, s, lo, hi, lo + i, lo + j);
    }
  }

  lemma OffsetInside(decls: seq<Decl>, s: State, lo: nat, hi: nat, i: nat)
    requires ValidDecls(decls) && Recorded(MembersOf(decls), |decls|, s) && WellLaid(decls)
    requires Run(s.infos, lo, hi) && i < hi - lo
    requires s.infos[lo].field < |s.fields| && s.fields[s.infos[lo].field].pos < |decls|
    requires decls[s.fields[s.infos[lo].field].pos].typeBits > 0
    requires forall i :: 0 <= i < |s.infos| ==> s.infos[i].pos < |MembersOf(decls)|
    ensures var offsets := Offsets(MembersOf(decls), s.infos, lo, hi);
      && offsets[i] == s.infos[lo + i].startBit
      && offsets[i] < decls[s.fields[s.infos[lo].field].pos].typeBits
  {
    hide Recorded, WellLaid, ValidDecls;
    RunStarts(MembersOf(decls), s, lo, hi, i);
    PlacedInside(decls, s, lo, hi, lo + i);
    assert s.infos[lo + i].field == s.infos[lo].field;
  }

  // ---------------------------------------------------------------------------
  // When the Go struct gives every bitfield exactly the bits of its member

  /** The recorded bits of entry `i` are exactly those of its member. */
  ghost predicate Exact(decls: seq<Decl>, s: State, i: nat)
    requires i < |s.infos|
  {
    var e := s.infos[i];
    && e.pos < |decls| && e.field < |s.fields| && s.fields[e.field].pos < |decls|
    && var d, base := decls[e.pos], decls[s.fields[e.field].pos];
       && e.startBit == d.offset - base.offset
       && End(Bitfield(e.startBit, e.endBit), base.typeBits) == d.offset + d.bits - base.offset
  }

  /** A bitfield that no entry records is a field of its own with all bits of its type. */
  ghost predicate PlainExact(decls: seq<Decl>, s: State, k: nat)
    requires k < |decls|
  {
    decls[k].isBitField && decls[k].name != "" && !HasInfo(s.infos, k) ==> decls[k].bits == decls[k].typeBits
  }

  ghost predicate AllExact(decls: seq<Decl>, s: State) {
    && (forall i :: 0 <= i < |s.infos| ==> Exact(decls, s, i))
    && (forall k :: 0 <= k < |decls| ==> PlainExact(decls, s, k))
  }

  /** The second condition on the declarations: the last bitfield of every field ends where the
      field ends. */
  ghost predicate Filled(decls: seq<Decl>)
    requires ValidDecls(decls)
  {
    var members := MembersOf(decls);
    forall k: nat, b: nat :: k < |decls| && BaseAt(members, k, b) ==> FilledAt(decls, k, b)
  }

  ghost predicate FilledAt(decls: seq<Decl>, k: nat, b: nat)
    requires ValidDecls(decls) && k < |decls| && b < |decls|
  {
    decls[k].isBitField && decls[k].name != "" && LastInField(MembersOf(decls), k) ==>
      decls[k].offset + decls[k].bits == decls[b].offset + decls[b].typeBits
  }

  /** Every bitfield of the struct, recorded or not, gets exactly the bits of its member if and only
      if the declarations are laid out unit by unit without gaps and fill their fields. */
  lemma ExactIffFilled(decls: seq<Decl>, s: State)
    requires ValidDecls(decls) && Visited(decls, s)
    ensures AllExact(decls, s) <==> WellLaid(decls) && Filled(decls)
  {
    hide Recorded, WellLaid, FilledAt, MembersOf, ValidDecls, Paired;
    PlacedIffWellLaid(decls, s);
    if AllExact(decls, s) {
      forall i | 0 <= i < |s.infos| ensures Placed(decls, s, i) {
        assert Exact(decls, s, i);
      }
      forall k: nat, b: nat | k < |decls| && BaseAt(MembersOf(decls), k, b) ensures FilledAt(decls, k, b) {
        ExactIsFilled(decls, s, k, b);
      }
    }
    if WellLaid(decls) && Filled(decls) {
      forall i | 0 <= i < |s.infos| ensures Exact(decls, s, i) {
        FilledIsExact(decls, s, i);
      }
      forall k | 0 <= k < |decls| ensures PlainExact(decls, s, k) {
        FilledIsPlain(decls, s, k);
      }
    }
  }

  /** A named bitfield begins a field or continues one. */
  lemma NamedIsKept(decls: seq<Decl>, k: nat)
    requires ValidDecls(decls) && k < |decls| && decls[k].isBitField && decls[k].name != ""
    ensures var m := MembersOf(decls)[k]; (Starts(m) || Continues(m)) && (Starts(m) <==> !Continues(m))
  {
    assert MembersOf(decls)[k] == MemberOf(decls[k]);
  }

  lemma KeptIsNamed(decls: seq<Decl>, k: nat)
    requires ValidDecls(decls) && k < |decls| && Continues(MembersOf(decls)[k])
    ensures decls[k].isBitField && decls[k].name != ""
  {
    assert MembersOf(decls)[k] == MemberOf(decls[k]);
  }

  lemma OwnBase(members: seq<Member>, k: nat)
    requires k < |members| && Starts(members[k])
    ensures BaseAt(members, k, k)
  {
  }

  lemma ExactIsFilled(decls: seq<Decl>, s: State, k: nat, b: nat)
    requires ValidDecls(decls) && Visited(decls, s) && AllExact(decls, s)
    requires k < |decls| && BaseAt(MembersOf(decls), k, b)
    ensures FilledAt(decls, k, b)
  {
    hide Recorded, BaseAt, LastInField, MembersOf, ValidDecls, Starts, Continues;
    var members := MembersOf(decls);
    if decls[k].isBitField && decls[k].name != "" && LastInField(members, k) {
      NamedIsKept(decls, k);
      if HasInfo(s.infos, k) {
        var i: nat :| i < |s.infos| && s.infos[i].pos == k;
        InfoBase(members, s, i);
        BaseUnique(members, k, b, s.fields[s.infos[i].field].pos);
        InfoLast(members, s, i);
        EndOfInfo(members, s, i);
        assert Exact(decls, s, i);
      } else {
        UnrecordedStarts(members, s, k);
        OwnBase(members, k);
        BaseUnique(members, k, b, k);
        assert PlainExact(decls, s, k);
      }
    }
  }

  lemma UnrecordedStarts(members: seq<Member>, s: State, k: nat)
    requires Recorded(members, |members|, s) && k < |members| && !HasInfo(s.infos, k)
    ensures !Continues(members[k])
  {
    hide FieldsOk, InfosOk, OpenOk, AllAnchored;
  }

  lemma FilledIsExact(decls: seq<Decl>, s: State, i: nat)
    requires ValidDecls(decls) && Visited(decls, s) && WellLaid(decls) && Filled(decls) && i < |s.infos|
    ensures Exact(decls, s, i)
  {
    hide Recorded, WellLaid, BaseAt, LastInField, MembersOf, ValidDecls;
    var members := MembersOf(decls);
    WellLaidIsPlaced(decls, s, i);
    EndOfInfo(members, s, i);
    if s.infos[i].endBit == 0 {
      assert PairedAt(s.infos, i);
      InfoKept(members, s, i);
      KeptIsNamed(decls, s.infos[i].pos);
      InfoLast(members, s, i);
      InfoBase(members, s, i);
      assert FilledAt(decls, s.infos[i].pos, s.fields[s.infos[i].field].pos);
    }
  }

  lemma FilledIsPlain(decls: seq<Decl>, s: State, k: nat)
    requires ValidDecls(decls) && Visited(decls, s) && Filled(decls) && k < |decls|
    ensures PlainExact(decls, s, k)
  {
    hide Recorded, BaseAt, LastInField, MembersOf, ValidDecls, HasInfo, Paired;
    var members := MembersOf(decls);
    if decls[k].isBitField && decls[k].name != "" && !HasInfo(s.infos, k) {
      NamedIsKept(decls, k);
      UnrecordedStarts(members, s, k);
      OwnBase(members, k);
      UnrecordedIsLast(decls, s, k);
      assert FilledAt(decls, k, k);
    }
  }

  lemma UnrecordedIsLast(decls: seq<Decl>, s: State, k: nat)
    requires ValidDecls(decls) && Recorded(MembersOf(decls), |decls|, s) && k < |decls|
    requires Starts(MembersOf(decls)[k]) && !HasInfo(s.infos, k)
    ensures LastInField(MembersOf(decls), k)
  {
    hide Recorded, ValidDecls, HasInfo;
    var members := MembersOf(decls);
    forall j | k < j < |members| && Continues(members[j]) ensures exists m :: k < m < j && Starts(members[m]) {
      if forall m :: k < m < j ==> !Starts(members[m]) {
        BaseIsRecorded(decls, s, j, k);
      }
    }
  }

  lemma BaseIsRecorded(decls: seq<Decl>, s: State, j: nat, b: nat)
    requires ValidDecls(decls) && Recorded(MembersOf(decls), |decls|, s) && j < |decls|
    requires Continues(MembersOf(decls)[j]) && BaseAt(MembersOf(decls), j, b)
    ensures HasInfo(s.infos, b)
  {
    hide Recorded, BaseAt, ValidDecls, MembersOf;
    var members := MembersOf(decls);
    var q := InfoOf(members, s, j);
    InfoBase(members, s, q);
    BaseUnique(members, j, b, s.fields[s.infos[q].field].pos);
    var r := FirstOfField(s.infos, q);
    BaseEntry(decls, s, r);
  }

  lemma {:induction false} FirstOfField(infos: seq<Info>, q: nat) returns (r: nat)
    requires q < |infos|
    ensures r <= q && infos[r].field == infos[q].field && !SameField(infos, r)
    ensures forall i :: r <= i <= q ==> infos[i].field == infos[q].field
  {
    if SameField(infos, q) {
      r := FirstOfField(infos, q - 1);
    } else {
      r := q;
    }
  }

  // What the accessors do to the members.

  lemma {:induction false} EndOfField(infos: seq<Info>, q: nat) returns (r: nat)
    requires q < |infos|
    ensures q < r <= |infos| && (r < |infos| ==> infos[r].field != infos[q].field)
    ensures forall i :: q <= i < r ==> infos[i].field == infos[q].field
    decreases |infos| - q
  {
    if SameField(infos, q + 1) {
      r := EndOfField(infos, q + 1);
    } else {
      r := q + 1;
    }
  }

  /** Every entry lies inside its field, and one with a recorded end inside its last bit. */
  lemma EntryFits(decls: seq<Decl>, s: State, i: nat)
    requires ValidDecls(decls) && Visited(decls, s) && WellLaid(decls) && i < |s.infos|
    ensures var e := s.infos[i];
      && e.field < |s.fields| && s.fields[e.field].pos < |decls| && e.pos < |decls|
      && var w := decls[s.fields[e.field].pos].typeBits;
         && Fits(Bitfield(e.startBit, e.endBit), w)
         && (if e.endBit != 0 then e.endBit < w else e.startBit > 0)
  {
    hide Recorded, WellLaid, MembersOf, ValidDecls;
    var e := s.infos[i];
    var lo := FirstOfField(s.infos, i);
    var hi := EndOfField(s.infos, i);
    assert Run(s.infos, lo, hi);
    WellLaidIsPlaced(decls, s, i);
    var w := decls[s.fields[e.field].pos].typeBits;
    SharedHasBits(decls, s, i);
    WellLaidRunIsGroup(decls, s, lo, hi, w);
    var bs := BitfieldsOf(s.infos, lo, hi);
    assert bs[i - lo] == Bitfield(e.startBit, e.endBit) && Fits(bs[i - lo], w);
    EndOfInfo(MembersOf(decls), s, i);
    if e.endBit != 0 {
      assert i + 1 < hi;
      assert bs[i + 1 - lo].startBit == s.infos[i + 1].startBit && Fits(bs[i + 1 - lo], w);
    } else {
      assert PairedAt(s.infos, i);
      ExactStart(decls, s, i);
    }
  }

  /** A field with a continuing bitfield inside has bits. */
  lemma SharedHasBits(decls: seq<Decl>, s: State, i: nat)
    requires ValidDecls(decls) && Visited(decls, s) && WellLaid(decls) && i < |s.infos| && Placed(decls, s, i)
    ensures decls[s.fields[s.infos[i].field].pos].typeBits > 0
  {
    hide Recorded, WellLaid, MembersOf, ValidDecls;
    var end := EndOfField(s.infos, i);
    var q := end - 1;
    assert PairedAt(s.infos, q) && !SameField(s.infos, q + 1);
    WellLaidIsPlaced(decls, s, q);
    EndOfInfo(MembersOf(decls), s, q);
    InfoKept(MembersOf(decls), s, q);
    ContinuingBits(decls, s.infos[q].pos);
  }

  lemma ExactStart(decls: seq<Decl>, s: State, i: nat)
    requires ValidDecls(decls) && Recorded(MembersOf(decls), |decls|, s) && SameField(s.infos, i)
    ensures s.infos[i].startBit > 0
  {
    hide FieldsOk, Complete, AllAnchored, OpenOk;
    assert LinkAt(s.fields, s.infos, i);
  }

  /** The bits of the member an entry stands for, in its base field. */
  datatype Place = Place(w: nat, start: nat, bits: nat)

  ghost function PlaceOf(decls: seq<Decl>, s: State, i: nat): Place
    requires i < |s.infos| && Placed(decls, s, i)
  {
    var e := s.infos[i];
    var d, base := decls[e.pos], decls[s.fields[e.field].pos];
    Place(base.typeBits, d.offset - base.offset, d.bits)
  }

  /** The bits the accessors of an entry touch: those of the member, but up to the end of the field
      for the last one. */
  function Touched(e: Info, p: Place): int {
    if e.endBit != 0 then p.bits else p.w - p.start
  }

  /** The expression built for a recorded bitfield reads the bits of the C member; that of the last
      one of a field also reads what is above, which is nothing exactly when the entry is exact. */
  lemma ReadsTrueMember(decls: seq<Decl>, s: State, i: nat, g: Ast, signed: bool, word: nat)
    requires ValidDecls(decls) && Visited(decls, s) && WellLaid(decls) && i < |s.infos|
    requires IsGetter(g, Bitfield(s.infos[i].startBit, s.infos[i].endBit))
    requires var e := s.infos[i];
      e.field < |s.fields| && s.fields[e.field].pos < |decls| && word < Bits.Pow2(decls[s.fields[e.field].pos].typeBits)
    ensures Placed(decls, s, i)
    ensures var e, p := s.infos[i], PlaceOf(decls, s, i);
      var b, n := Bitfield(e.startBit, e.endBit), Touched(e, p);
      && p.bits <= n && Fits(b, p.w) && (Exact(decls, s, i) <==> n == p.bits)
      && Eval(g, p.w, signed, word, 0) ==
           Shown(b, p.w, signed, word / Bits.Pow2(p.start) % Bits.Pow2(n))
  {
    hide Visited, WellLaid, MembersOf, ValidDecls, Get, Eval, Shown;
    EntryFits(decls, s, i);
    EntryPlaced(decls, s, i);
    var e, p := s.infos[i], PlaceOf(decls, s, i);
    var b := Bitfield(e.startBit, e.endBit);
    GetIsArithmetic(b, p.w, word);
    assert Reads(g, b, p.w, signed, word);
  }

  lemma EntryPlaced(decls: seq<Decl>, s: State, i: nat)
    requires ValidDecls(decls) && Visited(decls, s) && WellLaid(decls) && i < |s.infos|
    ensures Placed(decls, s, i)
  {
    WellLaidIsPlaced(decls, s, i);
  }

  /** The expression built for writing replaces the bits of the C member, and above those of the
      last one of a field what is left of the field. */
  lemma WritesTrueMember(decls: seq<Decl>, s: State, i: nat, g: Ast, signed: bool, word: nat, value: nat, k: nat)
    requires ValidDecls(decls) && Visited(decls, s) && WellLaid(decls) && i < |s.infos|
    requires IsSetter(g, Bitfield(s.infos[i].startBit, s.infos[i].endBit))
    requires var e := s.infos[i];
      && e.field < |s.fields| && s.fields[e.field].pos < |decls|
      && var w := decls[s.fields[e.field].pos].typeBits; word < Bits.Pow2(w) && value < Bits.Pow2(w)
    ensures Placed(decls, s, i)
    ensures var e, p := s.infos[i], PlaceOf(decls, s, i);
      var n := Touched(e, p);
      && p.bits <= n && (Exact(decls, s, i) <==> n == p.bits)
      && (Bits.Bit(Eval(g, p.w, signed, word, value), k) <==>
            if p.start <= k < p.start + n then Bits.Bit(value, k - p.start) else Bits.Bit(word, k))
  {
    hide Visited, WellLaid, MembersOf, ValidDecls, Eval, Bits.Bit;
    EntryFits(decls, s, i);
    EntryPlaced(decls, s, i);
    var e, p := s.infos[i], PlaceOf(decls, s, i);
    var b := Bitfield(e.startBit, e.endBit);
    assert Replaced(b, p.w, word, value, Eval(g, p.w, signed, word, value));
    assert Bits.Bit(Eval(g, p.w, signed, word, value), k) == ReplacedBit(b, p.w, word, value, k);
  }

  /** The value C gives a member whose bits are `x`, as a pattern of `w` bits. */
  function CValue(signed: bool, x: nat, bits: nat, w: nat): nat
    requires bits <= w
  {
    if signed then SignExtend(x, bits, w) else x
  }

  /** With exact bits, the getter gives the member's value in C exactly when it treats the sign as
      C does, or the sign bit is clear. It extends the sign only in the last bitfield of a signed
      base field. */
  lemma ReadsCValue(decls: seq<Decl>, s: State, i: nat, g: Ast, signed: bool, memberSigned: bool, word: nat)
    requires ValidDecls(decls) && Visited(decls, s) && AllExact(decls, s) && i < |s.infos|
    requires IsGetter(g, Bitfield(s.infos[i].startBit, s.infos[i].endBit))
    requires var e := s.infos[i];
      e.field < |s.fields| && s.fields[e.field].pos < |decls| && word < Bits.Pow2(decls[s.fields[e.field].pos].typeBits)
    ensures Placed(decls, s, i)
    ensures var p := PlaceOf(decls, s, i);
      var x := word / Bits.Pow2(p.start) % Bits.Pow2(p.bits);
      && 0 < p.bits < p.w
      && (Eval(g, p.w, signed, word, 0) == CValue(memberSigned, x, p.bits, p.w) <==>
            (memberSigned == (signed && s.infos[i].endBit == 0) || x < Bits.Pow2(p.bits - 1)))
  {
    hide Visited, WellLaid, MembersOf, ValidDecls, Eval, Bits.Pow2, SignExtend, Filled;
    ExactIffFilled(decls, s);
    ReadsTrueMember(decls, s, i, g, signed, word);
    EntryFits(decls, s, i);
    assert Exact(decls, s, i);
    var p := PlaceOf(decls, s, i);
    SignMatters(word / Bits.Pow2(p.start) % Bits.Pow2(p.bits), p.bits, p.w);
  }

  lemma SignMatters(x: nat, bits: nat, w: nat)
    requires 0 < bits < w
    ensures SignExtend(x, bits, w) == x <==> x < Bits.Pow2(bits - 1)
  {
    Bits.Pow2Monotone(bits, w - 1);
  }

  // ---------------------------------------------------------------------------
  // Structs that fail

  /** Two 4-bit int fields: well laid, but the second one is recorded up to bit 32. */
  const TWO_NIBBLES := [Decl("a", 0, 32, 32, 4, true), Decl("b", 4, 32, 32, 4, true)]

  lemma TwoNibblesShape(decls: seq<Decl>, s: State)
    requires |decls| == 2 && ValidDecls(decls) && Visited(decls, s)
    requires Starts(MembersOf(decls)[0]) && Continues(MembersOf(decls)[1])
    ensures |s.infos| == 2 && s.infos[0].pos == 0 && s.infos[1].pos == 1 && SameField(s.infos, 1)
  {
    hide Recorded, MembersOf, ValidDecls;
    var members := MembersOf(decls);
    var q := InfoOf(members, s, 1);
    InfoKept(members, s, q);
    InfosInOrder(members, s, q - 1, q);
    if q > 1 {
      InfosInOrder(members, s, q - 2, q - 1);
    }
    if q + 1 < |s.infos| {
      InfosInOrder(members, s, q, q + 1);
      InfoKept(members, s, q + 1);
    }
  }

  /** Whatever the visitor records, the second field gets bits 4 to 31 where C gives it 4 to 7. */
  lemma LastRunsOn(decls: seq<Decl>, s: State)
    requires decls == TWO_NIBBLES && ValidDecls(decls) && Visited(decls, s)
    ensures |s.infos| == 2 && s.infos[1].name == "b" && s.infos[1].startBit == 4 && s.infos[1].endBit == 0
    ensures WellLaid(decls) && !Exact(decls, s, 1)
  {
    var members := MembersOf(decls);
    assert members[0] == Member("a", 0, true) && members[1] == Member("b", 4, true);
    TwoNibblesLaid(decls);
    hide WellLaid, ValidDecls, MembersOf;
    TwoNibblesShape(decls, s);
    EndOfInfo(members, s, 1);
    SecondEntry(members, s);
  }

  lemma SecondEntry(members: seq<Member>, s: State)
    requires |members| == 2 && Recorded(members, 2, s) && !Starts(members[1]) && |s.infos| == 2 && s.infos[1].pos == 1
    ensures s.infos[1].name == members[1].name && s.infos[1].startBit == members[1].rem
    ensures s.infos[1].field < |s.fields| && s.fields[s.infos[1].field].pos == 0
  {
    hide OpenOk, Complete, AllAnchored, LinkAt;
    assert InfoOk(members, 2, s.fields, s.infos[1]);
    assert FieldOk(members, 2, s.fields[s.infos[1].field]);
  }

  lemma TwoNibblesLaid(decls: seq<Decl>)
    requires decls == TWO_NIBBLES && ValidDecls(decls)
    ensures WellLaid(decls)
  {
    var members := MembersOf(decls);
    assert members[0] == Member("a", 0, true) && members[1] == Member("b", 4, true);
    assert LaidAt(decls, 1, 0, 0) && EndsInside(decls, 1, 0);
  }

  /** Its getter reads bit 8, which is not its own. */
  lemma ForeignBitIsRead(g: Ast)
    requires IsGetter(g, Bitfield(4, 0))
    ensures Eval(g, 32, false, 256, 0) == 16
  {
    hide Eval, Bits.Pow2, Get;
    Nibble();
    GetIsArithmetic(Bitfield(4, 0), 32, 256);
    assert Reads(g, Bitfield(4, 0), 32, false, 256);
  }

  lemma Nibble()
    ensures Bits.Pow2(4) == 16 && 16 % Bits.Pow2(28) == 16 && 256 < Bits.Pow2(32)
  {
    assert Bits.Pow2(0) == 1 && Bits.Pow2(1) == 2 && Bits.Pow2(2) == 4 && Bits.Pow2(3) == 8;
    Bits.Pow2Monotone(5, 28);
    Bits.Pow2Add(5, 4);
    Bits.Pow2Monotone(9, 32);
    SmallMod(16, Bits.Pow2(28));
  }

  /** A 4-bit field in front of another holds -1 as the bits 1111, and the getter gives 15. */
  lemma SignIsLost(g: Ast)
    requires IsGetter(g, Bitfield(0, 4))
    ensures Eval(g, 32, true, 15, 0) == 15 && CValue(true, 15, 4, 32) == 15 + (Bits.Pow2(32) - 16)
  {
    hide Eval;
    Nibble();
    assert Bits.Pow2(0) == 1 && Bits.Pow2(3) == 8;
    GetIsArithmetic(Bitfield(0, 4), 32, 15);
    assert Reads(g, Bitfield(0, 4), 32, true, 15);
  }

  /** A bitfield alone in its unit becomes a field of its own with all bits of its type. */
  lemma LoneBitfieldIsWhole(decls: seq<Decl>, s: State)
    requires decls == [Decl("a", 0, 32, 32, 4, true)] && ValidDecls(decls) && Visited(decls, s)
    ensures s.infos == [] && WellLaid(decls) && !AllExact(decls, s)
  {
    hide Recorded;
    var members := MembersOf(decls);
    if s.infos != [] {
      assert PairedAt(s.infos, 0);
      InfosInOrder(members, s, 0, 1);
      InfoKept(members, s, 1);
    }
    assert !PlainExact(decls, s, 0);
  }

  /** `int :4; int b:4;`: the unnamed bitfield is passed over, and the visit of `b` fails because
      there is no field before it. */
  lemma UnnamedFirstFails(decls: seq<Decl>)
    requires decls == [Decl("", 0, 32, 32, 4, true), Decl("b", 4, 32, 32, 4, true)]
    ensures ValidDecls(decls) && Orphan(MembersOf(decls), 1)
  {
    assert MembersOf(decls)[1] == Member("b", 4, true);
  }

  /** A 20-bit int field followed by a 4-bit char field at bit 20: whatever the visitor records,
      the first field ends at bit 4. */
  lemma MixedTypesMisplaced(s: State)
    requires Recorded(MembersOf(MIXED_TYPES), 2, s)
    ensures |s.infos| == 2 && s.infos[0].name == "a" && s.infos[0].endBit == 4 && s.infos[1].startBit == 4
    ensures !Placed(MIXED_TYPES, s, 0) && !Placed(MIXED_TYPES, s, 1)
  {
    var members := MembersOf(MIXED_TYPES);
    assert members[0].rem == 0 && members[1].rem == 4;
    assert HasInfo(s.infos, 1);
    forall i | 0 <= i < |s.infos| ensures InfoOk(members, 2, s.fields, s.infos[i]) {
    }
    forall i | 0 <= i < |s.fields| ensures FieldOk(members, 2, s.fields[i]) && s.fields[i].pos == 0 {
    }
    forall j: nat | 0 < j < |s.infos| ensures s.infos[j - 1].pos < s.infos[j].pos {
      assert LinkAt(s.fields, s.infos, j);
    }
    assert |s.infos| > 1 ==> LinkAt(s.fields, s.infos, 1);
    assert |s.infos| > 2 ==> LinkAt(s.fields, s.infos, 2);
  }

  const MIXED_TYPES := [Decl("a", 0, 32, 32, 20, true), Decl("b", 20, 8, 8, 4, true)]
}
