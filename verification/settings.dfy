/** The site settings table: `SiteSettings.save` with its "only one row"
    guard (portfolio/models.py:228-231) and `get_site_settings`, which reads
    the first row (portfolio/views.py:24-25). */
module Settings {
  import opened Base
  import opened Models

  datatype SaveResult = Saved(table: seq<SettingsRow>) | Rejected(message: string)

  const OnlyOneInstance: string := "Il ne peut y avoir qu'une seule instance de SiteSettings"

  predicate AtMostOneRow(table: seq<SettingsRow>) {
    |table| <= 1
  }

  predicate HasPk(table: seq<SettingsRow>, pk: int) {
    exists i :: 0 <= i < |table| && table[i].pk == pk
  }

  /** Python's `not self.pk` for an integer key: absent or zero. */
  predicate Unsaved(pk: Option<int>) {
    pk.None? || pk.value == 0
  }

  /** The key the database gives a new row: one above every key in use. */
  function NextPk(table: seq<SettingsRow>): (k: int)
    ensures k >= 1
    ensures forall i :: 0 <= i < |table| ==> table[i].pk < k
  {
    if |table| == 0 then 1
    else
      var rest := NextPk(table[1..]);
      if table[0].pk + 1 > rest then table[0].pk + 1 else rest
  }

  /** Writes `value` as the row with key `pk`: updates it in place when it
      exists, appends it otherwise (Django's update-then-insert). */
  function Write(table: seq<SettingsRow>, pk: int, value: SiteSettings): (r: seq<SettingsRow>)
    ensures HasPk(table, pk) ==> |r| == |table|
    ensures !HasPk(table, pk) ==> r == table + [SettingsRow(pk, value)]
    ensures forall i :: 0 <= i < |table| && table[i].pk != pk ==> r[i] == table[i]
    ensures forall i :: 0 <= i < |table| && table[i].pk == pk ==> r[i] == SettingsRow(pk, value)
  {
    if HasPk(table, pk) then
      seq(|table|, i requires 0 <= i < |table| =>
        if table[i].pk == pk then SettingsRow(pk, value) else table[i])
    else table + [SettingsRow(pk, value)]
  }

  /** `SiteSettings.save` as written: the guard fires only for an instance whose
      key is falsy, so an instance carrying a fresh non-zero key is inserted
      even when a row already exists. */
  function Save(table: seq<SettingsRow>, pk: Option<int>, value: SiteSettings): (r: SaveResult)
    ensures r.Rejected? <==> Unsaved(pk) && |table| > 0
    ensures r.Rejected? ==> r.message == OnlyOneInstance
    ensures r.Saved? && pk.None? ==> |r.table| == 1 && r.table[0].value == value
    ensures r.Saved? && pk.Some? && HasPk(table, pk.value) ==>
      && |r.table| == |table|
      && forall i :: 0 <= i < |table| ==>
           r.table[i] == if table[i].pk == pk.value then SettingsRow(pk.value, value) else table[i]
    ensures r.Saved? && pk.Some? && !HasPk(table, pk.value) ==> r.table == table + [SettingsRow(pk.value, value)]
    ensures r.Saved? ==> exists i :: 0 <= i < |r.table| && r.table[i].value == value
  {
    if Unsaved(pk) && |table| > 0 then Rejected(OnlyOneInstance)
    else
      var k := if pk.None? then NextPk(table) else pk.value;
      var t := Write(table, k, value);
      assert HasPk(table, k) ==> exists i :: 0 <= i < |table| && table[i].pk == k && t[i].value == value;
      assert !HasPk(table, k) ==> t[|table|].value == value;
      Saved(t)
  }

  /** Saving a new instance or an existing row keeps the table at one row. */
  lemma SaveKeepsOneRowForNewOrExisting(table: seq<SettingsRow>, pk: Option<int>, value: SiteSettings)
    requires AtMostOneRow(table)
    requires pk.None? || pk.value == 0 || HasPk(table, pk.value)
    ensures Save(table, pk, value).Saved? ==> AtMostOneRow(Save(table, pk, value).table)
  {
  }

  /** The guard's gap: with one row stored under key 1, saving an instance that
      carries key 2 succeeds and leaves two rows. */
  lemma SaveAdmitsSecondRow(s: SiteSettings, t: SiteSettings)
    ensures var r := Save([SettingsRow(1, s)], Some(2), t);
      r.Saved? && |r.table| == 2 && !AtMostOneRow(r.table)
  {
    assert !HasPk([SettingsRow(1, s)], 2);
  }

  /** The guard as its message intends: any save that would add a row to a
      non-empty table is rejected; writes to an existing row go through. */
  function SaveSingleton(table: seq<SettingsRow>, pk: Option<int>, value: SiteSettings): (r: SaveResult)
    ensures r.Rejected? <==> |table| > 0 && (Unsaved(pk) || !HasPk(table, pk.value))
    ensures r.Rejected? ==> r.message == OnlyOneInstance
    ensures AtMostOneRow(table) && r.Saved? ==> AtMostOneRow(r.table)
    ensures r.Saved? ==> exists i :: 0 <= i < |r.table| && r.table[i].value == value
  {
    if |table| > 0 && (Unsaved(pk) || !HasPk(table, pk.value)) then Rejected(OnlyOneInstance)
    else
      var k := if pk.None? then NextPk(table) else pk.value;
      var t := Write(table, k, value);
      assert HasPk(table, k) ==> exists i :: 0 <= i < |table| && table[i].pk == k && t[i].value == value;
      assert !HasPk(table, k) ==> t[|table|].value == value;
      Saved(t)
  }

  /** The table after a sequence of guarded saves, rejected ones ignored. */
  function SaveAll(table: seq<SettingsRow>, saves: seq<(Option<int>, SiteSettings)>): seq<SettingsRow>
    decreases |saves|
  {
    if |saves| == 0 then table
    else
      var r := SaveSingleton(table, saves[0].0, saves[0].1);
      SaveAll(if r.Saved? then r.table else table, saves[1..])
  }

  /** From a table of at most one row (an empty one included), any sequence
      of guarded saves leaves at most one row. */
  lemma {:induction false} SaveAllKeepsOneRow(table: seq<SettingsRow>, saves: seq<(Option<int>, SiteSettings)>)
    requires AtMostOneRow(table)
    ensures AtMostOneRow(SaveAll(table, saves))
    decreases |saves|
  {
    if |saves| > 0 {
      var r := SaveSingleton(table, saves[0].0, saves[0].1);
      SaveAllKeepsOneRow(if r.Saved? then r.table else table, saves[1..]);
    }
  }

  /** `SiteSettings.objects.first()`: the row with the least key, if any. */
  function First(table: seq<SettingsRow>): (r: Option<SiteSettings>)
    ensures r.None? <==> |table| == 0
    ensures r.Some? ==> exists i :: 0 <= i < |table| && table[i].value == r.value
                                  && forall j :: 0 <= j < |table| ==> table[i].pk <= table[j].pk
  {
    if |table| == 0 then None
    else Some(table[LeastPkIndex(table)].value)
  }

  function LeastPkIndex(table: seq<SettingsRow>): (k: nat)
    requires |table| > 0
    ensures k < |table|
    ensures forall j :: 0 <= j < |table| ==> table[k].pk <= table[j].pk
  {
    if |table| == 1 then 0
    else
      var k := 1 + LeastPkIndex(table[1..]);
      if table[0].pk <= table[k].pk then 0 else k
  }
}
