/** CriteriaHelper: the filter restriction and the sort order that the paged, filterable siglum
  * table asks the criteria builder for. A restriction and an order are written as values, with
  * the meaning a restriction has for a stored siglum. */
module CriteriaHelper {
  import opened Wrappers
  import opened Text
  import opened Entities
  import opened SqlLike
  import opened Rows
  import SiglumDao

  /** The localized labels of the three siglum types (`Type.PRIMARY`, `Type.SECONDARY`,
    * `Type.TERTIARY`). */
  datatype TypeLabels = TypeLabels(primary: string, secondary: string, tertiary: string)

  /** `matchSiglumType`: the first type, in the order primary, secondary, tertiary, whose label in
    * upper case starts with the filter in upper case; None when no label does. */
  function MatchSiglumType(labels: TypeLabels, filter: string): (r: Option<SiglumType>)
    ensures r == Some(Primary) <==> StartsWith(ToUpper(labels.primary), ToUpper(filter))
    ensures r == Some(Secondary) <==> !StartsWith(ToUpper(labels.primary), ToUpper(filter))
                                      && StartsWith(ToUpper(labels.secondary), ToUpper(filter))
    ensures r == Some(Tertiary) <==> !StartsWith(ToUpper(labels.primary), ToUpper(filter))
                                     && !StartsWith(ToUpper(labels.secondary), ToUpper(filter))
                                     && StartsWith(ToUpper(labels.tertiary), ToUpper(filter))
    ensures r.None? <==> !StartsWith(ToUpper(labels.primary), ToUpper(filter))
                         && !StartsWith(ToUpper(labels.secondary), ToUpper(filter))
                         && !StartsWith(ToUpper(labels.tertiary), ToUpper(filter))
  {
    var f := ToUpper(filter);
    if StartsWith(ToUpper(labels.primary), f) then Some(Primary)
    else if StartsWith(ToUpper(labels.secondary), f) then Some(Secondary)
    else if StartsWith(ToUpper(labels.tertiary), f) then Some(Tertiary)
    else None
  }

  /** An upper-case prefix of a label starts it, so it selects that label's type or an earlier one. */
  lemma PrefixOfALabelMatches(labels: TypeLabels, filter: string)
    requires StartsWith(ToUpper(labels.secondary), ToUpper(filter))
    ensures MatchSiglumType(labels, filter) == Some(Primary) || MatchSiglumType(labels, filter) == Some(Secondary)
  {
  }

  /** The empty filter starts every label and matches the primary type. */
  lemma EmptyFilterMatchesPrimary(labels: TypeLabels)
    ensures MatchSiglumType(labels, "") == Some(Primary)
  {
    assert ToUpper(labels.primary)[..0] == ToUpper("");
  }

  /** A WHERE expression over the siglum table. */
  datatype Restriction = NameLike(pattern: string) | TypeIs(siglumType: SiglumType) | Or(left: Restriction, right: Restriction)

  /** Whether a stored siglum satisfies a restriction. */
  predicate Holds(r: Restriction, row: SiglumDao.SiglumRow) {
    match r
    case NameLike(pattern) => LikeMatches(row.data.name, pattern)
    case TypeIs(t) => row.data.siglumType == t
    case Or(a, b) => Holds(a, row) || Holds(b, row)
  }

  /** `getSiglumFilterStringRestriction`: the name is LIKE the filter followed by `%`, or, when a
    * type label matches the filter, the siglum has that type. */
  function SiglumRestriction(labels: TypeLabels, filter: string): (r: Restriction)
    ensures forall row :: Holds(r, row) <==>
              LikeMatches(row.data.name, filter + "%")
              || (MatchSiglumType(labels, filter).Some? && row.data.siglumType == MatchSiglumType(labels, filter).value)
  {
    match MatchSiglumType(labels, filter)
    case Some(t) => Or(NameLike(filter + "%"), TypeIs(t))
    case None => NameLike(filter + "%")
  }

  /** For a filter without wildcards the restriction selects the sigla whose name starts with the
    * filter, together with the sigla of the matched type. */
  lemma SiglumRestrictionIsPrefixOrType(labels: TypeLabels, filter: string, row: SiglumDao.SiglumRow)
    requires NoWildcards(filter)
    ensures Holds(SiglumRestriction(labels, filter), row) <==>
              StartsWith(row.data.name, filter)
              || (MatchSiglumType(labels, filter).Some? && row.data.siglumType == MatchSiglumType(labels, filter).value)
  {
    LikePrefix(row.data.name, filter);
  }

  /** The entity classes a data provider asks about. */
  datatype EntityClass = SiglumClass | OtherClass(name: string)

  /** `getFilterStringRestriction`: the siglum restriction for the siglum class, null for any other. */
  function FilterStringRestriction(labels: TypeLabels, filter: string, typeClass: EntityClass): (r: Option<Restriction>)
    ensures r.Some? <==> typeClass == SiglumClass
    ensures r.Some? ==> r.value == SiglumRestriction(labels, filter)
  {
    if typeClass == SiglumClass then Some(SiglumRestriction(labels, filter)) else None
  }

  /** The pieces of `s` between its dots, empty pieces included. */
  function SplitAtDots(s: string): (r: seq<string>)
    ensures |r| >= 1
    ensures forall i, j :: 0 <= i < |r| && 0 <= j < |r[i]| ==> r[i][j] != '.'
    ensures '.' !in s ==> r == [s]
  {
    if s == [] then [""]
    else if s[0] == '.' then [""] + SplitAtDots(s[1..])
    else
      var rest := SplitAtDots(s[1..]);
      assert '.' !in s ==> '.' !in s[1..] && [s[0]] + s[1..] == s;
      [[s[0]] + rest[0]] + rest[1..]
  }

  /** The pieces written back with a dot between each two. */
  function JoinDots(pieces: seq<string>): string
    requires |pieces| >= 1
  {
    if |pieces| == 1 then pieces[0] else pieces[0] + "." + JoinDots(pieces[1..])
  }

  /** Splitting at the dots loses nothing. */
  lemma {:induction false} JoinSplitAtDots(s: string)
    ensures JoinDots(SplitAtDots(s)) == s
  {
    if s == [] {
    } else if s[0] == '.' {
      JoinSplitAtDots(s[1..]);
      assert ([""] + SplitAtDots(s[1..]))[1..] == SplitAtDots(s[1..]);
      assert s == "" + "." + s[1..];
    } else {
      var rest := SplitAtDots(s[1..]);
      JoinSplitAtDots(s[1..]);
      var r := [[s[0]] + rest[0]] + rest[1..];
      if |rest| == 1 {
        assert s == [s[0]] + s[1..];
      } else {
        assert r[1..] == rest[1..];
        assert JoinDots(rest) == rest[0] + "." + JoinDots(rest[1..]);
        assert s == [s[0]] + s[1..];
      }
    }
  }

  /** `pieces` without the empty strings at its end. */
  function DropTrailingEmpty(pieces: seq<string>): (r: seq<string>)
    ensures |r| <= |pieces| && r == pieces[..|r|]
    ensures r != [] ==> r[|r| - 1] != ""
    ensures forall i :: |r| <= i < |pieces| ==> pieces[i] == ""
  {
    if pieces != [] && pieces[|pieces| - 1] == "" then DropTrailingEmpty(pieces[..|pieces| - 1]) else pieces
  }

  /** Java's `s.split("\\.")`: the whole string when it holds no dot, otherwise its pieces between
    * dots without the empty pieces at the end. */
  function JavaSplitDot(s: string): (r: seq<string>)
    ensures '.' !in s ==> r == [s]
  {
    if '.' !in s then [s] else DropTrailingEmpty(SplitAtDots(s))
  }

  /** A join of the query root, known by its attribute name. */
  type JoinName = string

  /** The path an order sorts on: a property of the root, or a property of a named join. */
  datatype SortPath = RootProperty(property: string) | JoinProperty(join: JoinName, property: string)

  /** One sort criterion. */
  datatype Order = Order(path: SortPath, ascending: bool)

  /** `getJoins`: there are no joins; the map is null. */
  function GetJoins(typeClass: EntityClass): (r: Option<map<string, JoinName>>)
    ensures r.None?
  {
    None
  }

  /** `getOrder`: a property of two dot-separated parts sorts on the second part of the join the
    * first part names; a missing join is an illegal state and a null join map a null reference.
    * Any other property sorts on the root. The list holds exactly one order. */
  function GetOrder(joins: Option<map<string, JoinName>>, property: string, isAscending: bool): (r: Result<seq<Order>, JavaException>)
    ensures r.Success? ==> |r.value| == 1 && r.value[0].ascending == isAscending
    ensures |JavaSplitDot(property)| != 2 ==> r == Success([Order(RootProperty(property), isAscending)])
    ensures |JavaSplitDot(property)| == 2 ==>
              var parts := JavaSplitDot(property);
              (joins.None? ==> r == Failure(NullPointer))
              && (joins.Some? && parts[0] !in joins.value ==> r == Failure(IllegalState))
              && (joins.Some? && parts[0] in joins.value ==>
                    r == Success([Order(JoinProperty(joins.value[parts[0]], parts[1]), isAscending)]))
  {
    var parts := JavaSplitDot(property);
    if |parts| == 2 then
      match joins
      case None => Failure(NullPointer)
      case Some(m) =>
        if parts[0] in m then Success([Order(JoinProperty(m[parts[0]], parts[1]), isAscending)])
        else Failure(IllegalState)
    else Success([Order(RootProperty(property), isAscending)])
  }

  /** A property without a dot always sorts on the root. */
  lemma PlainPropertySortsOnTheRoot(joins: Option<map<string, JoinName>>, property: string, isAscending: bool)
    requires '.' !in property
    ensures GetOrder(joins, property, isAscending) == Success([Order(RootProperty(property), isAscending)])
  {
  }

  /** With the join map `getJoins` hands out, a two-part sort property fails. */
  lemma TwoPartPropertyNeedsJoins(typeClass: EntityClass, join: string, property: string, isAscending: bool)
    requires '.' !in join && '.' !in property && property != ""
    ensures GetOrder(GetJoins(typeClass), join + "." + property, isAscending) == Failure(NullPointer)
  {
    var s := join + "." + property;
    assert s[|join|] == '.';
    SplitTwo(join, property);
  }

  /** A string of two dot-free parts, the second one non-empty, splits into those parts. */
  lemma {:induction false} SplitTwo(a: string, b: string)
    requires '.' !in a && '.' !in b && b != ""
    ensures SplitAtDots(a + "." + b) == [a, b]
    decreases |a|
  {
    if a == [] {
      assert a + "." + b == ['.'] + b;
      assert (a + "." + b)[1..] == b;
    } else {
      assert (a + "." + b)[1..] == a[1..] + "." + b;
      SplitTwo(a[1..], b);
      assert [a[0]] + a[1..] == a;
    }
  }
}
