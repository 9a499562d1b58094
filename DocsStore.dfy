// The documentation store of the web front end (front/stores/docs.store.ts): which sidebar
// groups are open, how documents are grouped, and the two orders used to lay them out
// (groups by a fixed priority, documents by the number their file name starts with).

module DocsStore {
  import opened Wrappers
  import opened Decimals

  /** The groups drawn as accordions, and the display order of the groups the site knows. */
  const AccordionGroups: set<string> := {"about gomoku", "about project", "alphazero", "minimax"}
  const GroupPriority: seq<string> := ["about gomoku", "about project", "minimax", "alphazero"]
  const OtherGroup: string := "Other"
  const DefaultIcon: string := "pi-file"

  // ---------------------------------------------------------------------------
  // Lower-casing (on the ASCII letters)
  // ---------------------------------------------------------------------------

  predicate IsUpper(c: char) {
    'A' <= c <= 'Z'
  }

  predicate IsLower(s: string) {
    forall i :: 0 <= i < |s| ==> !IsUpper(s[i])
  }

  function LowerChar(c: char): char {
    if IsUpper(c) then (c as int + 32) as char else c
  }

  /** `toLowerCase`: the result has no capital letter and keeps every other character. */
  function ToLower(s: string): (r: string)
    ensures |r| == |s| && IsLower(r)
    ensures forall i :: 0 <= i < |s| && !IsUpper(s[i]) ==> r[i] == s[i]
  {
    seq(|s|, i requires 0 <= i < |s| => LowerChar(s[i]))
  }

  /** Lower-casing twice is lower-casing once, and a lower-case name is its own lower case. */
  lemma ToLowerIdempotent(s: string)
    ensures ToLower(ToLower(s)) == ToLower(s)
    ensures IsLower(s) ==> ToLower(s) == s
  {
    var t := ToLower(s);
    assert forall i :: 0 <= i < |t| ==> ToLower(t)[i] == t[i];
    if IsLower(s) {
      assert forall i :: 0 <= i < |s| ==> t[i] == s[i];
    }
  }

  // ---------------------------------------------------------------------------
  // Open accordion groups
  // ---------------------------------------------------------------------------

  predicate NoDuplicates(gs: seq<string>) {
    forall i, j :: 0 <= i < j < |gs| ==> gs[i] != gs[j]
  }

  predicate AllLower(gs: seq<string>) {
    forall i :: 0 <= i < |gs| ==> IsLower(gs[i])
  }

  /** What the open-group list always satisfies: normalized names, each at most once. */
  predicate WellFormed(gs: seq<string>) {
    NoDuplicates(gs) && AllLower(gs)
  }

  /** `indexOf`: the first position of x, or -1. */
  function IndexOf(gs: seq<string>, x: string): (k: int)
    ensures -1 <= k < |gs|
    ensures k == -1 <==> x !in gs
    ensures k >= 0 ==> gs[k] == x && x !in gs[..k]
  {
    if gs == [] then -1
    else if gs[0] == x then 0
    else
      var k := IndexOf(gs[1..], x);
      if k == -1 then -1
      else
        assert gs[..k + 1] == [gs[0]] + gs[1..][..k];
        k + 1
  }

  /** `toggleGroup` on the list: append the normalized name, or drop its first occurrence. */
  function Toggled(gs: seq<string>, name: string): (r: seq<string>)
    ensures forall g :: g != ToLower(name) ==> (g in r <==> g in gs)
    ensures ToLower(name) !in gs ==> r == gs + [ToLower(name)]
    ensures ToLower(name) in gs ==> |r| == |gs| - 1
  {
    var n := ToLower(name);
    var idx := IndexOf(gs, n);
    if idx == -1 then gs + [n]
    else
      assert gs == gs[..idx] + [gs[idx]] + gs[idx + 1..];
      gs[..idx] + gs[idx + 1..]
  }

  /** `addOpenGroup` on the list: append the normalized name unless it is already there. */
  function Added(gs: seq<string>, name: string): (r: seq<string>)
    ensures ToLower(name) in r
    ensures forall g :: g in r <==> g in gs || g == ToLower(name)
    ensures |r| <= |gs| + 1
  {
    var n := ToLower(name);
    if n in gs then gs else gs + [n]
  }

  /** Adding a group that is already open changes nothing; adding twice is adding once. */
  lemma AddedIdempotent(gs: seq<string>, name: string)
    ensures ToLower(name) in gs ==> Added(gs, name) == gs
    ensures Added(Added(gs, name), name) == Added(gs, name)
  {
  }

  /** Toggling flips whether the group is open, as long as the list holds no duplicate. */
  lemma {:induction false} ToggleFlipsOpen(gs: seq<string>, name: string)
    requires NoDuplicates(gs)
    ensures ToLower(name) in Toggled(gs, name) <==> ToLower(name) !in gs
  {
    var n := ToLower(name);
    var idx := IndexOf(gs, n);
    if idx != -1 {
      var r := gs[..idx] + gs[idx + 1..];
      assert Toggled(gs, name) == r;
      forall k | 0 <= k < |r|
        ensures r[k] != n
      {
        if k >= idx {
          assert r[k] == gs[k + 1];
        }
      }
    }
  }

  /** Both list updates keep the list well formed. */
  lemma {:induction false} UpdatesKeepWellFormed(gs: seq<string>, name: string)
    requires WellFormed(gs)
    ensures WellFormed(Toggled(gs, name))
    ensures WellFormed(Added(gs, name))
  {
    var n := ToLower(name);
    var idx := IndexOf(gs, n);
    if idx == -1 {
      assert Toggled(gs, name) == gs + [n];
    } else {
      var r := gs[..idx] + gs[idx + 1..];
      assert Toggled(gs, name) == r;
      assert forall k :: 0 <= k < |r| ==> r[k] == (if k < idx then gs[k] else gs[k + 1]);
    }
  }

  /** Toggling twice restores the open groups: exactly when the group was closed, as a set otherwise. */
  lemma {:induction false} ToggleTwiceRestores(gs: seq<string>, name: string)
    requires NoDuplicates(gs)
    ensures ToLower(name) !in gs ==> Toggled(Toggled(gs, name), name) == gs
    ensures forall g :: g in Toggled(Toggled(gs, name), name) <==> g in gs
  {
    var n := ToLower(name);
    var once := Toggled(gs, name);
    if n !in gs {
      assert once == gs + [n];
      assert IndexOf(once, n) == |gs|;
      assert once[..|gs|] == gs;
    } else {
      ToggleFlipsOpen(gs, name);
      assert Toggled(once, name) == once + [n];
    }
  }

  /** The store object: the open groups are a list the operations replace. */
  class Store {
    var openGroups: seq<string>

    ghost predicate Valid()
      reads this
    {
      WellFormed(openGroups)
    }

    constructor()
      ensures openGroups == [] && Valid()
    {
      openGroups := [];
    }

    /** `isGroupOpen`: the group is open when its normalized name is listed. */
    function IsGroupOpen(name: string): (r: bool)
      reads this
      ensures r <==> exists i :: 0 <= i < |openGroups| && openGroups[i] == ToLower(name)
    {
      ToLower(name) in openGroups
    }

    method ToggleGroup(name: string)
      modifies this
      ensures openGroups == Toggled(old(openGroups), name)
      ensures old(Valid()) ==> Valid() && IsGroupOpen(name) == !old(IsGroupOpen(name))
    {
      var normalized := ToLower(name);
      var idx := IndexOf(openGroups, normalized);
      if idx == -1 {
        openGroups := openGroups + [normalized];
      } else {
        openGroups := openGroups[..idx] + openGroups[idx + 1..];
      }
      if old(Valid()) {
        ToggleFlipsOpen(old(openGroups), name);
        UpdatesKeepWellFormed(old(openGroups), name);
      }
    }

    method AddOpenGroup(name: string)
      modifies this
      ensures openGroups == Added(old(openGroups), name)
      ensures IsGroupOpen(name)
      ensures old(Valid()) ==> Valid()
    {
      var normalized := ToLower(name);
      if normalized !in openGroups {
        openGroups := openGroups + [normalized];
      }
      if old(Valid()) {
        UpdatesKeepWellFormed(old(openGroups), name);
      }
    }
  }

  // ---------------------------------------------------------------------------
  // Grouping the documents
  // ---------------------------------------------------------------------------

  /** A document as the content query returns it; absent optional fields are None. */
  datatype Doc = Doc(path: string, title: string, group: Option<string>, icon: Option<string>, id: Option<string>)

  /** A sidebar entry, with the id it is sorted by. */
  datatype DocItem = DocItem(name: string, icon: string, url: string, docId: string)

  /** `doc.group || "Other"`: a missing or empty group is "Other". */
  function GroupOf(group: Option<string>): (g: string)
    ensures g != []
    ensures group.Some? && group.value != [] ==> g == group.value
    ensures group.None? || group.value == [] ==> g == OtherGroup
  {
    if group.Some? && group.value != [] then group.value else OtherGroup
  }

  /** The entry for a document: a missing or empty icon is the file icon, a missing id is the path. */
  function ItemOf(doc: Doc): (item: DocItem)
    ensures item.name == doc.title && item.url == doc.path
    ensures item.icon == (if doc.icon.Some? && doc.icon.value != [] then doc.icon.value else DefaultIcon)
    ensures item.docId == (if doc.id.Some? then doc.id.value else doc.path)
  {
    DocItem(doc.title,
            if doc.icon.Some? && doc.icon.value != [] then doc.icon.value else DefaultIcon,
            doc.path,
            if doc.id.Some? then doc.id.value else doc.path)
  }

  /** The path-to-group map after the documents are read in order (a later path overwrites). */
  function PathMapOf(docs: seq<Doc>): map<string, string>
  {
    if docs == [] then map[]
    else
      var last := docs[|docs| - 1];
      PathMapOf(docs[..|docs| - 1])[last.path := GroupOf(last.group)]
  }

  /** The groups in the order they first occur (the insertion order of the group map). */
  function GroupOrder(docs: seq<Doc>): seq<string>
  {
    if docs == [] then []
    else
      var order := GroupOrder(docs[..|docs| - 1]);
      var g := GroupOf(docs[|docs| - 1].group);
      if g in order then order else order + [g]
  }

  /** The entries of group g, in document order. */
  function ItemsIn(docs: seq<Doc>, g: string): seq<DocItem>
  {
    if docs == [] then []
    else
      var last := docs[|docs| - 1];
      ItemsIn(docs[..|docs| - 1], g) + (if GroupOf(last.group) == g then [ItemOf(last)] else [])
  }

  /** Exactly the paths of the documents are mapped. */
  lemma {:induction false} PathMapKeys(docs: seq<Doc>)
    ensures forall p :: p in PathMapOf(docs) <==> exists i :: 0 <= i < |docs| && docs[i].path == p
  {
    if docs != [] {
      var init := docs[..|docs| - 1];
      PathMapKeys(init);
      forall p
        ensures p in PathMapOf(docs) <==> exists i :: 0 <= i < |docs| && docs[i].path == p
      {
        if p in PathMapOf(init) {
          var i :| 0 <= i < |init| && init[i].path == p;
          assert docs[i].path == p;
        }
        if exists i :: 0 <= i < |docs| && docs[i].path == p {
          var i :| 0 <= i < |docs| && docs[i].path == p;
          if i < |init| {
            assert init[i].path == p;
          }
        }
      }
    }
  }

  /** A path is mapped to the group of the last document with that path. */
  lemma {:induction false} PathMapKeepsLastDoc(docs: seq<Doc>, i: nat)
    requires i < |docs|
    requires forall j :: i < j < |docs| ==> docs[j].path != docs[i].path
    ensures docs[i].path in PathMapOf(docs) && PathMapOf(docs)[docs[i].path] == GroupOf(docs[i].group)
  {
    if i < |docs| - 1 {
      var init := docs[..|docs| - 1];
      assert init[i] == docs[i];
      PathMapKeepsLastDoc(init, i);
    }
  }

  /** Each group is listed once, and the listed groups are exactly those of the documents. */
  lemma {:induction false} GroupOrderListsEachGroupOnce(docs: seq<Doc>)
    ensures NoDuplicates(GroupOrder(docs))
    ensures forall g :: g in GroupOrder(docs) <==> exists i :: 0 <= i < |docs| && GroupOf(docs[i].group) == g
  {
    if docs != [] {
      var init := docs[..|docs| - 1];
      GroupOrderListsEachGroupOnce(init);
      forall g
        ensures g in GroupOrder(docs) <==> exists i :: 0 <= i < |docs| && GroupOf(docs[i].group) == g
      {
        if g in GroupOrder(init) {
          var i :| 0 <= i < |init| && GroupOf(init[i].group) == g;
          assert GroupOf(docs[i].group) == g;
        }
        if exists i :: 0 <= i < |docs| && GroupOf(docs[i].group) == g {
          var i :| 0 <= i < |docs| && GroupOf(docs[i].group) == g;
          if i < |init| {
            assert GroupOf(init[i].group) == g;
          }
        }
      }
    }
  }

  /** Every document's entry is in its own group, and a group holds entries of its documents only. */
  lemma {:induction false} ItemsInOwnGroup(docs: seq<Doc>, g: string)
    ensures forall i :: 0 <= i < |docs| && GroupOf(docs[i].group) == g ==> ItemOf(docs[i]) in ItemsIn(docs, g)
    ensures forall item :: item in ItemsIn(docs, g) ==>
              exists i :: 0 <= i < |docs| && GroupOf(docs[i].group) == g && ItemOf(docs[i]) == item
    ensures |ItemsIn(docs, g)| <= |docs|
  {
    if docs != [] {
      var init := docs[..|docs| - 1];
      ItemsInOwnGroup(init, g);
      forall i | 0 <= i < |docs| && GroupOf(docs[i].group) == g
        ensures ItemOf(docs[i]) in ItemsIn(docs, g)
      {
        if i < |init| {
          assert docs[i] == init[i];
        }
      }
      forall item | item in ItemsIn(docs, g)
        ensures exists i :: 0 <= i < |docs| && GroupOf(docs[i].group) == g && ItemOf(docs[i]) == item
      {
        if item in ItemsIn(init, g) {
          var i :| 0 <= i < |init| && GroupOf(init[i].group) == g && ItemOf(init[i]) == item;
          assert docs[i] == init[i];
        } else {
          assert ItemOf(docs[|docs| - 1]) == item;
        }
      }
    }
  }

  /** A group no document belongs to has no entries. */
  lemma {:induction false} UnlistedGroupIsEmpty(docs: seq<Doc>, g: string)
    requires g !in GroupOrder(docs)
    ensures ItemsIn(docs, g) == []
  {
    if docs != [] {
      var init := docs[..|docs| - 1];
      var order := GroupOrder(init);
      assert g !in order by {
        assert forall x :: x in order ==> x in GroupOrder(docs);
      }
      UnlistedGroupIsEmpty(init, g);
    }
  }

  /**
   * The loop of `fetchDocLinks` over the documents: it fills the path map, and the group map
   * whose keys, in insertion order, are returned as `order`.
   */
  method GroupDocs(docs: seq<Doc>) returns (pathMap: map<string, string>, order: seq<string>, groupMap: map<string, seq<DocItem>>)
    ensures pathMap == PathMapOf(docs) && order == GroupOrder(docs)
    ensures forall g :: g in groupMap <==> g in order
    ensures forall g :: g in groupMap ==> groupMap[g] == ItemsIn(docs, g)
  {
    pathMap := map[];
    order := [];
    groupMap := map[];
    for k := 0 to |docs|
      invariant pathMap == PathMapOf(docs[..k]) && order == GroupOrder(docs[..k])
      invariant forall g :: g in groupMap <==> g in order
      invariant forall g :: g in groupMap ==> groupMap[g] == ItemsIn(docs[..k], g)
    {
      var doc := docs[k];
      var group := GroupOf(doc.group);
      assert docs[..k + 1][..k] == docs[..k] && docs[..k + 1][k] == doc;
      pathMap := pathMap[doc.path := group];
      if group !in groupMap {
        UnlistedGroupIsEmpty(docs[..k], group);
        groupMap := groupMap[group := []];
        order := order + [group];
      }
      groupMap := groupMap[group := groupMap[group] + [ItemOf(doc)]];
    }
    assert docs[..|docs|] == docs;
  }

  // ---------------------------------------------------------------------------
  // File names and the natural order of documents
  // ---------------------------------------------------------------------------

  /** The last piece of `split("/")`: what follows the last slash. */
  function LastSegment(s: string): (r: string)
    ensures '/' !in r
    ensures |r| <= |s| && r == s[|s| - |r|..]
    ensures |r| == |s| || s[|s| - |r| - 1] == '/'
  {
    if s == [] then []
    else if s[|s| - 1] == '/' then []
    else
      var r := LastSegment(s[..|s| - 1]) + [s[|s| - 1]];
      assert s[|s| - |r|..] == s[..|s| - 1][|s| - |r|..] + [s[|s| - 1]];
      r
  }

  /** `replace(/\.md$/, "")`: drop one trailing ".md". */
  function StripMd(s: string): (r: string)
    ensures |s| >= 3 && s[|s| - 3..] == ".md" ==> r + ".md" == s
    ensures !(|s| >= 3 && s[|s| - 3..] == ".md") ==> r == s
  {
    if |s| >= 3 && s[|s| - 3..] == ".md" then s[..|s| - 3] else s
  }

  /**
   * `getFileNameFromId`: the id (or the url when the id is empty), cut to its last path
   * segment unless that segment is empty, without its ".md" extension.
   */
  function FileNameFromId(id: string, url: string): (r: string)
    ensures var src := if id != [] then id else url;
            '/' in r ==> src != [] && src[|src| - 1] == '/'
  {
    var src := if id != [] then id else url;
    var seg := LastSegment(src);
    var name := if seg != [] then seg else src;
    assert seg == [] && src != [] ==> src[|src| - 1] == '/';
    StripMd(name)
  }

  /** The file name of "dir/name.md" is name, whatever the directory. */
  lemma FileNameOfDocId(dir: string, name: string, url: string)
    requires '/' !in name
    ensures FileNameFromId(dir + "/" + name + ".md", url) == name
  {
    assert '/' !in name + ".md";
    LastSegmentAfterSlash(dir, name + ".md");
    assert (dir + "/" + name + ".md") == dir + "/" + (name + ".md");
    assert (name + ".md")[..|name|] == name;
  }

  /** A missing (empty) id falls back to the url: the name is the one the url gives as an id. */
  lemma FileNameFallsBackToUrl(url: string, other: string)
    requires url != []
    ensures FileNameFromId([], url) == FileNameFromId(url, other)
  {
  }

  /**
   * The file name of `p + "/" + t`, for a non-empty last segment t: t without its trailing
   * ".md" when it has one, t itself otherwise.
   */
  lemma FileNameOfPath(p: string, t: string, url: string)
    requires t != [] && '/' !in t
    ensures var r := FileNameFromId(p + "/" + t, url);
            (|t| >= 3 && t[|t| - 3..] == ".md" ==> r + ".md" == t) &&
            (!(|t| >= 3 && t[|t| - 3..] == ".md") ==> r == t)
  {
    LastSegmentAfterSlash(p, t);
  }

  /** An id without a slash is its own last segment. */
  lemma FileNameWithoutSlash(id: string, url: string)
    requires id != [] && '/' !in id
    ensures var r := FileNameFromId(id, url);
            (|id| >= 3 && id[|id| - 3..] == ".md" ==> r + ".md" == id) &&
            (!(|id| >= 3 && id[|id| - 3..] == ".md") ==> r == id)
  {
    LastSegmentWithoutSlash(id);
  }

  /** An id ending in a slash has an empty last segment, so the whole id is kept. */
  lemma FileNameOfDirectory(id: string, url: string)
    requires id != [] && id[|id| - 1] == '/'
    ensures FileNameFromId(id, url) == id
  {
  }

  /** Text without a slash is all one segment. */
  lemma {:induction false} LastSegmentWithoutSlash(s: string)
    requires '/' !in s
    ensures LastSegment(s) == s
    decreases |s|
  {
    if s != [] {
      var init := s[..|s| - 1];
      assert '/' !in init by {
        assert forall k :: 0 <= k < |init| ==> init[k] == s[k];
      }
      LastSegmentWithoutSlash(init);
      assert init + [s[|s| - 1]] == s;
    }
  }

  /** What follows the last slash is the last segment. */
  lemma {:induction false} LastSegmentAfterSlash(dir: string, t: string)
    requires '/' !in t
    ensures LastSegment(dir + "/" + t) == t
    decreases |t|
  {
    if t != [] {
      var init := t[..|t| - 1];
      assert '/' !in init by {
        assert forall k :: 0 <= k < |init| ==> init[k] == t[k];
      }
      LastSegmentAfterSlash(dir, init);
      var s := dir + "/" + t;
      assert s[..|s| - 1] == dir + "/" + init;
      assert s[|s| - 1] == t[|t| - 1];
      assert init + [t[|t| - 1]] == t;
    }
  }

  predicate IsDigitChar(c: char) {
    '0' <= c <= '9'
  }

  /** The length of the match of /^(\d+)/: the leading ASCII digits. */
  function LeadingDigits(s: string): (n: nat)
    ensures n <= |s| && (forall i :: 0 <= i < n ==> IsDigitChar(s[i]))
    ensures n == |s| || !IsDigitChar(s[n])
  {
    if s != [] && IsDigitChar(s[0]) then 1 + LeadingDigits(s[1..]) else 0
  }

  /**
   * `naturalCompare`: two names that both start with digits compare by those numbers, then by
   * the rest; otherwise by `localeCompare`, which is a parameter.
   */
  function NaturalCompare(a: string, b: string, localeCompare: (string, string) -> int): (c: int)
    // Unless both names start with digits, `localeCompare` alone decides.
    ensures LeadingDigits(a) == 0 || LeadingDigits(b) == 0 ==> c == localeCompare(a, b)
    // Two different leading numbers decide by their sign, and never tie.
    ensures LeadingDigits(a) > 0 && LeadingDigits(b) > 0 &&
            DecimalValue(a[..LeadingDigits(a)]) != DecimalValue(b[..LeadingDigits(b)]) ==>
              c != 0 && (c < 0 <==> DecimalValue(a[..LeadingDigits(a)]) < DecimalValue(b[..LeadingDigits(b)]))
    // Equal leading numbers leave the rests, after the digits, to `localeCompare`.
    ensures LeadingDigits(a) > 0 && LeadingDigits(b) > 0 &&
            DecimalValue(a[..LeadingDigits(a)]) == DecimalValue(b[..LeadingDigits(b)]) ==>
              c == localeCompare(a[LeadingDigits(a)..], b[LeadingDigits(b)..])
  {
    var na := LeadingDigits(a);
    var nb := LeadingDigits(b);
    if na > 0 && nb > 0 then
      var numA := DecimalValue(a[..na]);
      var numB := DecimalValue(b[..nb]);
      if numA != numB then numA - numB else localeCompare(a[na..], b[nb..])
    else localeCompare(a, b)
  }

  /** The digits of a written number followed by a non-digit are exactly that number. */
  lemma LeadingDecimal(n: nat, rest: string)
    requires rest == [] || !IsDigitChar(rest[0])
    ensures LeadingDigits(Decimal(n) + rest) == |Decimal(n)|
    ensures (Decimal(n) + rest)[..|Decimal(n)|] == Decimal(n)
    ensures (Decimal(n) + rest)[|Decimal(n)|..] == rest
  {
    var d := Decimal(n);
    LeadingDigitsAt(d + rest, |d|);
  }

  /** A run of k digits followed by a non-digit (or the end) is the leading digit run. */
  lemma {:induction false} LeadingDigitsAt(s: string, k: nat)
    requires k <= |s| && (forall i :: 0 <= i < k ==> IsDigitChar(s[i]))
    requires k == |s| || !IsDigitChar(s[k])
    ensures LeadingDigits(s) == k
  {
    if k > 0 {
      LeadingDigitsAt(s[1..], k - 1);
    }
  }

  /** "2.x" comes before "10.y": numbered names compare by the difference of their numbers. */
  lemma NumberedNamesCompareByNumber(m: nat, n: nat, ra: string, rb: string, localeCompare: (string, string) -> int)
    requires ra == [] || !IsDigitChar(ra[0])
    requires rb == [] || !IsDigitChar(rb[0])
    ensures m != n ==> NaturalCompare(Decimal(m) + ra, Decimal(n) + rb, localeCompare) == m - n
    ensures m == n ==> NaturalCompare(Decimal(m) + ra, Decimal(n) + rb, localeCompare) == localeCompare(ra, rb)
  {
    LeadingDecimal(m, ra);
    LeadingDecimal(n, rb);
    DecimalRoundTrip(m);
    DecimalRoundTrip(n);
  }

  /** Swapping the arguments negates the result when `localeCompare` is antisymmetric. */
  lemma NaturalCompareAntisymmetric(a: string, b: string, localeCompare: (string, string) -> int)
    requires forall x, y :: localeCompare(x, y) == -localeCompare(y, x)
    ensures NaturalCompare(a, b, localeCompare) == -NaturalCompare(b, a, localeCompare)
  {
  }

  // ---------------------------------------------------------------------------
  // The order of the groups
  // ---------------------------------------------------------------------------

  /** The rank of a group in the priority list, by its lower-case name, or -1. */
  function Priority(name: string): (p: int)
    ensures -1 <= p < |GroupPriority|
    ensures p == -1 <==> ToLower(name) !in GroupPriority
  {
    IndexOf(GroupPriority, ToLower(name))
  }

  /** The group comparator: by rank when both groups are ranked differently, else `localeCompare`. */
  function GroupCompare(a: string, b: string, localeCompare: (string, string) -> int): (c: int)
    ensures Priority(a) != -1 && Priority(b) != -1 && Priority(a) != Priority(b) ==>
              c != 0 && (c < 0 <==> Priority(a) < Priority(b))
    ensures Priority(a) == -1 || Priority(b) == -1 || Priority(a) == Priority(b) ==> c == localeCompare(a, b)
  {
    var pa := Priority(a);
    var pb := Priority(b);
    if pa != -1 && pb != -1 && pa != pb then pa - pb else localeCompare(a, b)
  }

  /** The known groups come in the listed order, whatever their capitalisation. */
  lemma KnownGroupsInPriorityOrder(i: nat, j: nat, a: string, b: string, localeCompare: (string, string) -> int)
    requires i < j < |GroupPriority|
    requires ToLower(a) == GroupPriority[i] && ToLower(b) == GroupPriority[j]
    ensures GroupCompare(a, b, localeCompare) < 0
  {
    assert GroupPriority[i] !in GroupPriority[..i];
    assert IndexOf(GroupPriority, GroupPriority[i]) == i;
    assert IndexOf(GroupPriority, GroupPriority[j]) == j;
  }

  /** A group outside the list, such as "Other", is placed among the others by `localeCompare` alone. */
  lemma UnrankedGroupsByLocale(a: string, b: string, localeCompare: (string, string) -> int)
    requires ToLower(a) !in GroupPriority || ToLower(b) !in GroupPriority
    ensures GroupCompare(a, b, localeCompare) == localeCompare(a, b)
  {
  }

  /**
   * The comparator is not an order once an unranked group sorts between two ranked ones:
   * "minimax" before "alphazero" by rank, but "alphazero" before "Basics" before "minimax"
   * by `localeCompare`.
   */
  lemma GroupCompareCycle(localeCompare: (string, string) -> int)
    requires localeCompare("alphazero", "Basics") < 0 && localeCompare("Basics", "minimax") < 0
    ensures GroupCompare("minimax", "alphazero", localeCompare) < 0
    ensures GroupCompare("alphazero", "Basics", localeCompare) < 0
    ensures GroupCompare("Basics", "minimax", localeCompare) < 0
  {
    CycleRanks();
  }

  /** The ranks used by the cycle: two ranked groups and one unranked. */
  lemma CycleRanks()
    ensures Priority("minimax") == 2 && Priority("alphazero") == 3 && Priority("Basics") == -1
  {
    RankOf("minimax", 2);
    RankOf("alphazero", 3);
    assert Priority("Basics") == -1 by {
      assert ToLower("Basics")[0] == 'b';
      assert forall g :: g in GroupPriority ==> g[0] == 'a' || g[0] == 'm';
    }
  }

  /** A lower-case listed name has its list position as rank. */
  lemma RankOf(name: string, i: nat)
    requires i < |GroupPriority| && name == GroupPriority[i]
    ensures Priority(name) == i
  {
    assert IsLower(name) by {
      assert forall g :: g in GroupPriority ==> IsLower(g);
    }
    ToLowerIdempotent(name);
    assert name !in GroupPriority[..i];
  }
}
