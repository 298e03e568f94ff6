/** How the analyzers look up the name an AI reply recommends among the
    candidates: first a case-insensitive exact match, then the first
    candidate whose name contains the wanted name or is contained in it (both
    compared lower-cased). */
module NameMatch {
  import opened Wrappers
  import opened JsText
  import opened Seqs

  /** `a.toLowerCase().includes(b.toLowerCase()) || b.toLowerCase().includes(a.toLowerCase())` */
  predicate Overlaps(a: string, b: string) {
    Contains(LowerStr(a), LowerStr(b)) || Contains(LowerStr(b), LowerStr(a))
  }

  /** Equal names overlap. */
  lemma SameNameOverlaps(a: string, b: string)
    requires SameName(a, b)
    ensures Overlaps(a, b)
  {
    ContainsEmptyAndSelf(LowerStr(a));
  }

  /** Every name overlaps the empty name. */
  lemma EmptyOverlaps(a: string)
    ensures Overlaps(a, "")
  {
    ContainsEmptyAndSelf(LowerStr(a));
    assert LowerStr("") == "";
  }

  /** The index the two `find` tiers settle on for the wanted name, or
      `None` when both fail. */
  function Resolve<T>(s: seq<T>, name: T -> string, wanted: string): (r: Option<nat>)
    ensures r.Some? ==> r.value < |s| && Overlaps(name(s[r.value]), wanted)
    ensures r.None? <==> forall j :: 0 <= j < |s| ==> !Overlaps(name(s[j]), wanted)
  {
    match FindFirst(s, x => SameName(name(x), wanted))
    case Some(i) =>
      SameNameOverlaps(name(s[i]), wanted);
      Some(i)
    case None =>
      assert forall j :: 0 <= j < |s| ==> !SameName(name(s[j]), wanted);
      FindFirst(s, x => Overlaps(name(x), wanted))
  }

  /** The exact tier wins: the first case-insensitively equal name is
      chosen even when an earlier name merely overlaps the wanted name. */
  lemma ResolveExact<T>(s: seq<T>, name: T -> string, wanted: string, i: nat)
    requires i < |s| && SameName(name(s[i]), wanted)
    requires forall j :: 0 <= j < i ==> !SameName(name(s[j]), wanted)
    ensures Resolve(s, name, wanted) == Some(i)
  {
    var e := FindFirst(s, x => SameName(name(x), wanted));
    assert e.Some?;
  }

  /** Without an exact match the first overlapping name is chosen. */
  lemma ResolvePartial<T>(s: seq<T>, name: T -> string, wanted: string, i: nat)
    requires forall j :: 0 <= j < |s| ==> !SameName(name(s[j]), wanted)
    requires i < |s| && Overlaps(name(s[i]), wanted)
    requires forall j :: 0 <= j < i ==> !Overlaps(name(s[j]), wanted)
    ensures Resolve(s, name, wanted) == Some(i)
  {
    var p := FindFirst(s, x => Overlaps(name(x), wanted));
    assert p.Some?;
  }

  /** An empty wanted name (the recommendation line is missing) selects the first
      candidate, unless some candidate's name is empty itself. */
  lemma ResolveEmptyLabel<T>(s: seq<T>, name: T -> string)
    requires s != []
    requires forall j :: 0 <= j < |s| ==> name(s[j]) != ""
    ensures Resolve(s, name, "") == Some(0)
  {
    forall j | 0 <= j < |s| ensures !SameName(name(s[j]), "") {
      assert |LowerStr(name(s[j]))| != |LowerStr("")|;
    }
    EmptyOverlaps(name(s[0]));
    ResolvePartial(s, name, "", 0);
  }
  /** The `find` tiers with a fallback: the candidate `Resolve` settles on,
      or `fallback` when neither tier finds one. */
  function Pick<T>(s: seq<T>, name: T -> string, wanted: string, fallback: Option<T>): (r: Option<T>)
    ensures (exists j :: 0 <= j < |s| && Overlaps(name(s[j]), wanted)) ==>
      r.Some? && r.value in s && Overlaps(name(r.value), wanted)
    ensures (forall j :: 0 <= j < |s| ==> !Overlaps(name(s[j]), wanted)) ==> r == fallback
  {
    match Resolve(s, name, wanted)
    case Some(i) => Some(s[i])
    case None => fallback
  }

  /** An exactly named candidate is picked, the first of them. */
  lemma PickExact<T>(s: seq<T>, name: T -> string, wanted: string, fallback: Option<T>, i: nat)
    requires i < |s| && SameName(name(s[i]), wanted)
    requires forall j :: 0 <= j < i ==> !SameName(name(s[j]), wanted)
    ensures Pick(s, name, wanted, fallback) == Some(s[i])
  {
    ResolveExact(s, name, wanted, i);
  }

  /** Without an exactly named candidate the first overlapping one is picked. */
  lemma PickPartial<T>(s: seq<T>, name: T -> string, wanted: string, fallback: Option<T>, i: nat)
    requires forall j :: 0 <= j < |s| ==> !SameName(name(s[j]), wanted)
    requires i < |s| && Overlaps(name(s[i]), wanted)
    requires forall j :: 0 <= j < i ==> !Overlaps(name(s[j]), wanted)
    ensures Pick(s, name, wanted, fallback) == Some(s[i])
  {
    ResolvePartial(s, name, wanted, i);
  }

  /** A missing recommendation picks the first candidate when no candidate
      has an empty name. */
  lemma PickEmptyName<T>(s: seq<T>, name: T -> string, fallback: Option<T>)
    requires s != []
    requires forall j :: 0 <= j < |s| ==> name(s[j]) != ""
    ensures Pick(s, name, "", fallback) == Some(s[0])
  {
    ResolveEmptyLabel(s, name);
  }
}
