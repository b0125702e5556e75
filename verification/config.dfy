/**
 * Profile resolution: the scan over the configuration sections that fills the
 * `profile` dictionary, `fields` and `swap_columns`, and the derivation of the
 * page size and the label cell dimension from the resolved profile.
 */
module Config {
  import opened Wrappers
  import opened Errors
  import opened Strings

  /** One configuration section, with its options as the parser reports them. */
  datatype Section = Section(name: string, options: map<string, string>)

  /** `Points` stands for the dictionary without a `unit` key (unscaled points). */
  datatype Unit = Points | MM

  /** A named standard size, or an explicit width and height scaled by the unit. */
  datatype PageSize = A4 | Explicit(width: int, height: int, unit: Unit)

  /** The script's `profile` dictionary: a field is None while its key is absent. */
  datatype Profile = Profile(
    pagesize: Option<PageSize>,
    unit: Unit,
    height: Option<int>,
    width: Option<int>,
    rows: Option<int>,
    columns: Option<int>)

  /** The dictionary with no keys at all. */
  const Empty := Profile(None, Points, None, None, None, None)

  const General := "general"
  const DefaultFields := ["artist", "title"]

  /** What the scan hands on: the profile, the field list and swap_columns. */
  datatype Resolved = Resolved(profile: Profile, fields: seq<string>, swapColumns: bool)

  /** Section names are unique: the configuration parser refuses duplicates. */
  predicate DistinctNames(sections: seq<Section>)
  {
    forall i, j :: 0 <= i < j < |sections| ==> sections[i].name != sections[j].name
  }

  predicate HasType(s: Section) { "type" in s.options }

  /** The option `key` is present and equal to `value`. */
  predicate OptionIs(options: map<string, string>, key: string, value: string)
  {
    key in options && options[key] == value
  }

  /** `int(config.get(section, key))`, None when the key is absent or not an integer. */
  function IntOption(options: map<string, string>, key: string): Option<int>
  {
    if key in options then ParseInt(options[key]) else None
  }

  /** The rows and columns setting: the integer value, or 1 on absence or parse failure. */
  function IntOrOne(options: map<string, string>, key: string): (n: int)
    ensures IntOption(options, key).Some? ==> n == IntOption(options, key).value
    ensures IntOption(options, key).None? ==> n == 1
  {
    match IntOption(options, key)
    case Some(n) => n
    case None => 1
  }

  /** The `fields` setting: the colon-separated list, or artist and title when absent. */
  function FieldsSetting(options: map<string, string>): (fields: seq<string>)
    ensures "fields" !in options ==> fields == DefaultFields
    ensures "fields" in options ==> fields == Split(options["fields"], ':')
    ensures "fields" in options ==> Join(fields, ":") == options["fields"]
  {
    if "fields" in options then
      JoinSplit(options["fields"], ':');
      var fields := Split(options["fields"], ':');
      // Split never returns an empty list, so this default is never taken.
      if fields == [] then DefaultFields else fields
    else
      DefaultFields
  }

  /** The scan stops (`break`) at this section. */
  predicate BreaksAt(s: Section, name: string)
  {
    if s.name == General then
      !HasType(s)
    else
      s.name == name &&
      (!HasType(s) ||
       (!OptionIs(s.options, "pagesize", "A4") &&
        (IntOption(s.options, "height").None? || IntOption(s.options, "width").None?)))
  }

  /**
   * The dictionary that processing the profile's own section leaves behind,
   * starting from an empty one, up to the end of the section or up to its break.
   */
  function SectionProfile(options: map<string, string>): Profile
  {
    if "type" !in options then Empty
    else if OptionIs(options, "pagesize", "A4") then
      Profile(Some(A4), MM, None, None, Some(IntOrOne(options, "rows")), Some(IntOrOne(options, "columns")))
    else
      match IntOption(options, "height")
      case None => Empty
      case Some(h) =>
        match IntOption(options, "width")
        case None => Empty.(height := Some(h))
        case Some(w) =>
          Profile(None, if OptionIs(options, "unit", "mm") then MM else Points, Some(h), Some(w),
                  Some(IntOrOne(options, "rows")), Some(IntOrOne(options, "columns")))
  }

  /** Index of the first section called `name`, or |sections| when there is none. */
  function IndexOf(sections: seq<Section>, name: string): (k: nat)
    ensures k <= |sections|
    ensures k < |sections| ==> sections[k].name == name
    ensures forall j :: 0 <= j < k ==> sections[j].name != name
  {
    if sections == [] then 0
    else if sections[0].name == name then 0
    else 1 + IndexOf(sections[1..], name)
  }

  /** Index of the first section the scan breaks at, or |sections| when it never breaks. */
  function FirstBreak(sections: seq<Section>, name: string): (k: nat)
    ensures k <= |sections|
    ensures k < |sections| ==> BreaksAt(sections[k], name)
    ensures forall j :: 0 <= j < k ==> !BreaksAt(sections[j], name)
  {
    if sections == [] then 0
    else if BreaksAt(sections[0], name) then 0
    else 1 + FirstBreak(sections[1..], name)
  }

  /**
   * Declarative account of the scan. The profile section contributes when no
   * earlier section broke the scan; it contributes its fields only when it did
   * not break the scan itself. The general section sets swap_columns when it
   * comes before the first break.
   */
  function Resolve(sections: seq<Section>, name: string): (r: Result<Resolved, Error>)
    ensures r == Failure(ProfileNotFound) <==> forall j :: 0 <= j < |sections| ==> sections[j].name != name
    ensures r.Success? ==> name != General && r.value.profile != Empty
    ensures r.Success? ==> var p := r.value.profile;
      (p.pagesize == Some(A4) || p.height.Some?) &&
      (p.pagesize == Some(A4) ==> p.unit == MM) &&
      (p.pagesize.Some? || p.width.Some? ==> p.rows.Some? && p.columns.Some?)
  {
    var p := IndexOf(sections, name);
    if p == |sections| then Failure(ProfileNotFound)
    else
      var stop := FirstBreak(sections, name);
      var g := IndexOf(sections, General);
      var swap := g < stop && OptionIs(sections[g].options, "swap-columns", "yes");
      Outcome(name, p, stop, swap, sections[p].options)
  }

  /**
   * What the scan leaves once the profile's section was found at p and the
   * scan stopped at `stop`: the section's settings when it was reached.
   */
  function Outcome(name: string, p: nat, stop: nat, swap: bool, options: map<string, string>): Result<Resolved, Error>
  {
    var profile := if name != General && p <= stop then SectionProfile(options) else Empty;
    var fields := if name != General && p < stop then FieldsSetting(options) else [];
    if profile == Empty then Failure(ProfileEmpty) else Success(Resolved(profile, fields, swap))
  }

  /**
   * The scan of the script: sections in order, the general section for
   * swap_columns, the named section for the profile, `break` on a missing
   * `type` or an unparsable height or width.
   */
  method ResolveProfile(sections: seq<Section>, name: string) returns (r: Result<Resolved, Error>)
    requires DistinctNames(sections)
    ensures r == Resolve(sections, name)
  {
    if forall j | 0 <= j < |sections| :: sections[j].name != name {
      return Failure(ProfileNotFound);
    }
    ghost var p := IndexOf(sections, name);
    ghost var g := IndexOf(sections, General);
    ghost var stop := FirstBreak(sections, name);

    var profile := Empty;
    var swapColumns := false;
    var fields: seq<string> := [];
    var i := 0;
    while i < |sections|
      invariant 0 <= i <= stop
      invariant swapColumns == (g < i && OptionIs(sections[g].options, "swap-columns", "yes"))
      invariant profile == if name != General && p < i then SectionProfile(sections[p].options) else Empty
      invariant fields == if name != General && p < i then FieldsSetting(sections[p].options) else []
    {
      var section := sections[i];
      if section.name == General {
        assert i == g;
        var broke;
        swapColumns, broke := ReadGeneralSection(section.options);
        if broke {
          assert BreaksAt(section, name);
          break;
        }
      } else if section.name == name {
        assert i == p;
        var broke;
        profile, fields, broke := ReadProfileSection(section.options);
        if broke {
          assert BreaksAt(section, name);
          break;
        }
      }
      i := i + 1;
    }
    assert swapColumns == (g < stop && OptionIs(sections[g].options, "swap-columns", "yes"));
    assert profile == if name != General && p <= stop then SectionProfile(sections[p].options) else Empty;
    assert fields == if name != General && p < stop then FieldsSetting(sections[p].options) else [];
    if profile == Empty {
      return Failure(ProfileEmpty);
    }
    r := Success(Resolved(profile, fields, swapColumns));
  }

  /** The general section: `type` first, then `swap-columns`, which only the value `yes` turns on. */
  method ReadGeneralSection(options: map<string, string>) returns (swapColumns: bool, broke: bool)
    ensures broke <==> "type" !in options
    ensures swapColumns <==> !broke && OptionIs(options, "swap-columns", "yes")
  {
    swapColumns := false;
    broke := "type" !in options;
    if broke {
      return;
    }
    if "swap-columns" in options {
      var value := options["swap-columns"];
      if value == "yes" {
        swapColumns := true;
      }
    }
  }

  /**
   * The profile's own section, read into an empty profile: `type` first, then
   * the page size or the height and width, rows, columns, unit and fields.
   * `broke` reports that the scan breaks here, leaving what was stored so far.
   */
  method ReadProfileSection(options: map<string, string>) returns (profile: Profile, fields: seq<string>, broke: bool)
    ensures broke <==> (!("type" in options) ||
      (!OptionIs(options, "pagesize", "A4") &&
       (IntOption(options, "height").None? || IntOption(options, "width").None?)))
    ensures profile == SectionProfile(options)
    ensures fields == if broke then [] else FieldsSetting(options)
  {
    profile := Empty;
    fields := [];
    broke := true;
    if "type" !in options {
      return;
    }
    if "pagesize" in options {
      var pagesize := options["pagesize"];
      if pagesize == "A4" {
        profile := profile.(pagesize := Some(A4), unit := MM);
      }
    }
    if profile.pagesize.None? {
      var height := IntOption(options, "height");
      if height.None? {
        return;
      }
      profile := profile.(height := height);
      var width := IntOption(options, "width");
      if width.None? {
        return;
      }
      profile := profile.(width := width);
    }
    broke := false;
    profile := profile.(rows := Some(IntOrOne(options, "rows")));
    profile := profile.(columns := Some(IntOrOne(options, "columns")));
    if "unit" in options {
      var unit := options["unit"];
      if unit == "mm" {
        profile := profile.(unit := MM);
      }
    }
    if "fields" in options {
      fields := Split(options["fields"], ':');
      if fields == [] {
        fields := DefaultFields;
      }
    } else {
      fields := DefaultFields;
    }
  }

  /** Page size and cell dimension, derived once the profile is resolved. */
  datatype Layout = Layout(pagesize: PageSize, dims: int)

  /**
   * A standard page size gives a 35-unit cell; otherwise the page is the
   * profile's width by height and the cell is 5 less than the smaller of the
   * two. A missing width or height raises KeyError (width is read first).
   */
  function LayoutOf(profile: Profile): (r: Result<Layout, Error>)
    ensures profile.pagesize.Some? ==> r == Success(Layout(profile.pagesize.value, 35))
    ensures profile.pagesize.None? ==> (r.Success? <==> profile.width.Some? && profile.height.Some?)
    ensures profile.pagesize.None? && profile.width.None? ==> r == Failure(MissingKey("width"))
    ensures profile.pagesize.None? && r.Success? ==>
      var w, h := profile.width.value, profile.height.value;
      r.value.pagesize == Explicit(w, h, profile.unit) &&
      r.value.dims + 5 <= w && r.value.dims + 5 <= h &&
      (r.value.dims + 5 == w || r.value.dims + 5 == h)
  {
    if profile.pagesize.None? then
      if profile.width.None? then Failure(MissingKey("width"))
      else if profile.height.None? then Failure(MissingKey("height"))
      else
        var w, h := profile.width.value, profile.height.value;
        Success(Layout(Explicit(w, h, profile.unit), (if w <= h then w else h) - 5))
    else
      Success(Layout(profile.pagesize.value, 35))
  }

  /** The profile's own section exists and no earlier section breaks the scan. */
  predicate Reached(sections: seq<Section>, name: string)
  {
    name != General && IndexOf(sections, name) < |sections| &&
    forall j :: 0 <= j < IndexOf(sections, name) ==> !BreaksAt(sections[j], name)
  }

  /** `pagesize = A4` selects the standard size, millimetres and a 35-unit cell. */
  lemma ResolveA4(sections: seq<Section>, name: string)
    requires Reached(sections, name)
    requires var options := sections[IndexOf(sections, name)].options;
      "type" in options && OptionIs(options, "pagesize", "A4")
    ensures var options := sections[IndexOf(sections, name)].options;
      var r := Resolve(sections, name);
      r.Success? && r.value.profile.pagesize == Some(A4) && r.value.profile.unit == MM &&
      r.value.fields == FieldsSetting(options) &&
      LayoutOf(r.value.profile) == Success(Layout(A4, 35))
  {
    var p := IndexOf(sections, name);
    assert !BreaksAt(sections[p], name);
  }

  /**
   * Without A4, integer height and width give a page of width by height in the
   * configured unit (millimetres only for `unit = mm`) and a cell 5 less than
   * the smaller side.
   */
  lemma ResolveExplicit(sections: seq<Section>, name: string, h: int, w: int)
    requires Reached(sections, name)
    requires var options := sections[IndexOf(sections, name)].options;
      "type" in options && !OptionIs(options, "pagesize", "A4") &&
      IntOption(options, "height") == Some(h) && IntOption(options, "width") == Some(w)
    ensures var options := sections[IndexOf(sections, name)].options;
      var r := Resolve(sections, name);
      var unit := if OptionIs(options, "unit", "mm") then MM else Points;
      r.Success? && r.value.profile.unit == unit &&
      r.value.profile.height == Some(h) && r.value.profile.width == Some(w) &&
      r.value.fields == FieldsSetting(options) &&
      LayoutOf(r.value.profile).Success? &&
      LayoutOf(r.value.profile).value.pagesize == Explicit(w, h, unit) &&
      LayoutOf(r.value.profile).value.dims == (if w <= h then w else h) - 5
  {
    var p := IndexOf(sections, name);
    assert !BreaksAt(sections[p], name);
  }

  /** Rows and columns are the configured integers, or 1 when absent or not integers. */
  lemma ResolveGrid(sections: seq<Section>, name: string)
    requires Reached(sections, name)
    requires Resolve(sections, name).Success?
    requires var pr := Resolve(sections, name).value.profile; pr.pagesize.Some? || pr.width.Some?
    ensures var options := sections[IndexOf(sections, name)].options;
      var pr := Resolve(sections, name).value.profile;
      pr.rows == Some(IntOrOne(options, "rows")) && pr.columns == Some(IntOrOne(options, "columns")) &&
      (IntOption(options, "rows").None? ==> pr.rows == Some(1)) &&
      (IntOption(options, "columns").None? ==> pr.columns == Some(1))
  {
  }

  /**
   * Resolution fails with an empty profile when the profile name is the general
   * section, when an earlier section breaks the scan, when the profile's section
   * lacks `type`, or when, without A4, its height is not an integer.
   */
  lemma ResolveEmpty(sections: seq<Section>, name: string)
    requires exists j :: 0 <= j < |sections| && sections[j].name == name
    requires !Reached(sections, name) ||
      (var options := sections[IndexOf(sections, name)].options;
       "type" !in options ||
       (!OptionIs(options, "pagesize", "A4") && IntOption(options, "height").None?))
    ensures Resolve(sections, name) == Failure(ProfileEmpty)
  {
    var p := IndexOf(sections, name);
    var stop := FirstBreak(sections, name);
    if name != General && p <= stop && Reached(sections, name) {
      assert SectionProfile(sections[p].options) == Empty;
    }
  }

  /**
   * As written, a width that is not an integer breaks the scan after the height
   * was stored: the profile is not empty, so resolution succeeds with no width
   * and no fields, and deriving the layout then raises KeyError on `width`.
   */
  lemma ResolveWidthMissing(sections: seq<Section>, name: string, h: int)
    requires Reached(sections, name)
    requires var options := sections[IndexOf(sections, name)].options;
      "type" in options && !OptionIs(options, "pagesize", "A4") &&
      IntOption(options, "height") == Some(h) && IntOption(options, "width").None?
    ensures var r := Resolve(sections, name);
      r.Success? && r.value.profile == Empty.(height := Some(h)) && r.value.fields == [] &&
      LayoutOf(r.value.profile) == Failure(MissingKey("width"))
  {
    var p := IndexOf(sections, name);
    assert BreaksAt(sections[p], name);
    assert FirstBreak(sections, name) == p;
  }

  /** The general section comes before the first break exactly when nothing before it breaks and it has `type`. */
  lemma GeneralBeforeBreak(sections: seq<Section>, name: string)
    ensures var g := IndexOf(sections, General);
      g < FirstBreak(sections, name) <==>
        g < |sections| && HasType(sections[g]) && forall j :: 0 <= j < g ==> !BreaksAt(sections[j], name)
  {
    var g := IndexOf(sections, General);
    var stop := FirstBreak(sections, name);
    if g < stop {
      assert !BreaksAt(sections[g], name);
    } else if g < |sections| && HasType(sections[g]) {
      assert !BreaksAt(sections[g], name);
      assert BreaksAt(sections[stop], name);
    }
  }

  /**
   * swap_columns holds exactly when the general section has `type`, says
   * `swap-columns = yes`, and no section before it breaks the scan.
   */
  lemma ResolveSwap(sections: seq<Section>, name: string)
    requires Resolve(sections, name).Success?
    ensures var g := IndexOf(sections, General);
      Resolve(sections, name).value.swapColumns <==>
        g < |sections| && HasType(sections[g]) &&
        OptionIs(sections[g].options, "swap-columns", "yes") &&
        forall j :: 0 <= j < g ==> !BreaksAt(sections[j], name)
  {
    GeneralBeforeBreak(sections, name);
  }

  lemma {:induction false} IndexOfAppend(sections: seq<Section>, tail: seq<Section>, name: string)
    requires IndexOf(sections, name) < |sections|
    ensures IndexOf(sections + tail, name) == IndexOf(sections, name)
  {
    if sections[0].name != name {
      assert (sections + tail)[1..] == sections[1..] + tail;
      IndexOfAppend(sections[1..], tail, name);
    }
  }

  lemma {:induction false} IndexOfAppendAbsent(sections: seq<Section>, tail: seq<Section>, name: string)
    requires IndexOf(sections, name) == |sections|
    ensures IndexOf(sections + tail, name) >= |sections|
  {
    if sections != [] {
      assert (sections + tail)[1..] == sections[1..] + tail;
      IndexOfAppendAbsent(sections[1..], tail, name);
    }
  }

  lemma {:induction false} FirstBreakAppend(sections: seq<Section>, tail: seq<Section>, name: string)
    requires FirstBreak(sections, name) < |sections|
    ensures FirstBreak(sections + tail, name) == FirstBreak(sections, name)
  {
    if !BreaksAt(sections[0], name) {
      assert (sections + tail)[1..] == sections[1..] + tail;
      FirstBreakAppend(sections[1..], tail, name);
    }
  }

  /**
   * A break ends the scan: once a section that breaks it has been seen, and the
   * profile name has been seen, no later section changes the outcome.
   */
  lemma ScanStopsAtBreak(sections: seq<Section>, tail: seq<Section>, name: string, k: nat)
    requires k < |sections| && BreaksAt(sections[k], name)
    requires exists j :: 0 <= j < |sections| && sections[j].name == name
    ensures Resolve(sections + tail, name) == Resolve(sections, name)
  {
    var all := sections + tail;
    var stop := FirstBreak(sections, name);
    assert stop <= k;
    var p := IndexOf(sections, name);
    var j :| 0 <= j < |sections| && sections[j].name == name;
    assert p <= j;
    IndexOfAppend(sections, tail, name);
    FirstBreakAppend(sections, tail, name);
    assert all[p] == sections[p];
    var g := IndexOf(sections, General);
    var swap := g < stop && OptionIs(sections[g].options, "swap-columns", "yes");
    if g < |sections| {
      IndexOfAppend(sections, tail, General);
      assert all[g] == sections[g];
    } else {
      IndexOfAppendAbsent(sections, tail, General);
    }
    var gAll := IndexOf(all, General);
    assert swap == (gAll < stop && OptionIs(all[gAll].options, "swap-columns", "yes"));
  }
}
