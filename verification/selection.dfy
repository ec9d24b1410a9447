/** How the window resolves its `SelectId`: the filter handed to the export
    service, the selected authenticator, its display mark and the window title.
 */
module Selection {
  import opened Base
  import Decimal

  /** The two fields of `MyAuthenticator` the window reads. */
  datatype Authenticator = Authenticator(id: UShort, name: Option<string>)

  /** `GetFilter`: no filter (export everything) for the unset id zero,
      otherwise a predicate selecting exactly the records with that id. */
  function GetFilter(selectId: UShort): (f: Option<Authenticator -> bool>)
    ensures f.None? <==> selectId == 0
    ensures f.Some? ==> forall a: Authenticator :: f.value(a) <==> a.id == selectId
  {
    if selectId == 0 then None else Some((a: Authenticator) => a.id == selectId)
  }

  /** True when `a` is kept by the (possibly absent) filter `f`. */
  predicate Keeps(f: Option<Authenticator -> bool>, a: Authenticator)
  {
    f.None? || f.value(a)
  }

  /** `FirstOrDefault`: the position of the first element satisfying `p`. */
  function FirstIndex<T>(xs: seq<T>, p: T -> bool): (r: Option<nat>)
    ensures r.Some? ==> r.value < |xs| && p(xs[r.value])
    ensures r.Some? ==> forall j :: 0 <= j < r.value ==> !p(xs[j])
    ensures r.None? <==> forall j :: 0 <= j < |xs| ==> !p(xs[j])
    decreases |xs|
  {
    if xs == [] then None
    else if p(xs[0]) then Some(0)
    else
      match FirstIndex(xs[1..], p)
      case None => None
      case Some(k) => Some(k + 1)
  }

  /** The record with id `id` standing first in `records`. */
  predicate IsFirstWithId(records: seq<Authenticator>, id: UShort, i: nat)
  {
    && i < |records|
    && records[i].id == id
    && forall j :: 0 <= j < i ==> records[j].id != id
  }

  /** `SelectAuthenticator`: nothing for the unset id, otherwise the first
      record carrying the selected id, if any. */
  function SelectAuthenticator(selectId: UShort, records: seq<Authenticator>): (r: Option<Authenticator>)
    ensures r.None? <==> selectId == 0 || forall j :: 0 <= j < |records| ==> records[j].id != selectId
    ensures r.Some? ==> exists i: nat :: IsFirstWithId(records, selectId, i) && records[i] == r.value
  {
    if selectId == 0 then None
    else
      match FirstIndex(records, (a: Authenticator) => a.id == selectId)
      case None => None
      case Some(i) =>
        assert IsFirstWithId(records, selectId, i);
        Some(records[i])
  }

  /** The text shown for an authenticator: its name, or its id in decimal
      when the name is null or empty. */
  function DisplayMark(a: Authenticator): string
  {
    if IsNullOrEmpty(a.name) then Decimal.FromNat(a.id) else a.name.value
  }

  /** `SelectAuthenticatorMark`: present exactly when an authenticator is
      selected; never empty; the name when there is one, otherwise the
      canonical decimal rendering of the id: digits that read back as the id,
      with no leading zero unless the id is 0. */
  function SelectAuthenticatorMark(selectId: UShort, records: seq<Authenticator>): (r: Option<string>)
    ensures r.None? <==> SelectAuthenticator(selectId, records).None?
    ensures r.Some? ==> |r.value| > 0
    ensures r.Some? ==>
      var a := SelectAuthenticator(selectId, records).value;
      if IsNullOrEmpty(a.name)
      then && Decimal.IsDecimal(r.value) && Decimal.ToNat(r.value) == a.id
           && (r.value[0] == '0' ==> |r.value| == 1)
      else a.name == Some(r.value)
  {
    match SelectAuthenticator(selectId, records)
    case None => None
    case Some(a) =>
      Decimal.ToNatFromNat(a.id);
      Some(DisplayMark(a))
  }

  /** The filter `GetFilter` hands to the export service and the selection the
      mark is taken from agree: an authenticator is selected exactly when the
      filter is present and keeps some record, and then the selected one is
      the first record the filter keeps. */
  lemma {:induction false} FilterAgreesWithSelection(selectId: UShort, records: seq<Authenticator>)
    ensures var f := GetFilter(selectId);
      SelectAuthenticator(selectId, records).Some? <==>
        f.Some? && exists j :: 0 <= j < |records| && f.value(records[j])
    ensures var f := GetFilter(selectId);
      SelectAuthenticator(selectId, records).Some? ==>
        exists i :: 0 <= i < |records| && records[i] == SelectAuthenticator(selectId, records).value
          && f.value(records[i]) && forall j :: 0 <= j < i ==> !f.value(records[j])
  {
    var f := GetFilter(selectId);
    var r := SelectAuthenticator(selectId, records);
    if r.Some? {
      var i: nat :| IsFirstWithId(records, selectId, i) && records[i] == r.value;
      assert f.value(records[i]);
    } else if f.Some? {
      forall j | 0 <= j < |records|
        ensures !f.value(records[j])
      {
        assert records[j].id != selectId;
      }
    }
  }

  /** With no selection, every record passes the (absent) filter. */
  lemma NoSelectionKeepsEverything(records: seq<Authenticator>)
    ensures forall j :: 0 <= j < |records| ==> Keeps(GetFilter(0), records[j])
    ensures SelectAuthenticatorMark(0, records).None?
  {
  }

  /** The `Title` getter: the base title, followed by the mark in parentheses
      when an authenticator is selected. */
  function Title(baseTitle: string, mark: Option<string>): (r: string)
    ensures |r| >= |baseTitle| && r[..|baseTitle|] == baseTitle
    ensures mark.None? ==> r == baseTitle
    ensures mark.Some? ==>
      && |r| == |baseTitle| + |mark.value| + 2
      && r[|baseTitle|] == '('
      && r[|baseTitle| + 1 .. |r| - 1] == mark.value
      && r[|r| - 1] == ')'
  {
    match mark
    case None => baseTitle
    case Some(m) => baseTitle + "(" + m + ")"
  }

  /** The window title for a given selection. */
  function WindowTitle(baseTitle: string, selectId: UShort, records: seq<Authenticator>): string
  {
    Title(baseTitle, SelectAuthenticatorMark(selectId, records))
  }

  /** For a fixed base title, the title determines the mark: different marks
      (or a mark and no mark) never give the same title. */
  lemma TitleDeterminesMark(baseTitle: string, m1: Option<string>, m2: Option<string>)
    requires Title(baseTitle, m1) == Title(baseTitle, m2)
    ensures m1 == m2
  {
    var t := Title(baseTitle, m1);
    if m1.Some? && m2.Some? {
      assert m1.value == t[|baseTitle| + 1 .. |t| - 1] == m2.value;
    }
  }

  /** The title gains a parenthesised suffix exactly when the selected id names
      an existing record. */
  lemma TitleMarkedIffSelected(baseTitle: string, selectId: UShort, records: seq<Authenticator>)
    ensures WindowTitle(baseTitle, selectId, records) != baseTitle <==>
      selectId != 0 && exists j :: 0 <= j < |records| && records[j].id == selectId
  {
  }
}
