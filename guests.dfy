/** Guest records: the normal form of a guest name, grouping of likely
    duplicate guests, and merging duplicates into one primary guest. */
module Guests {
  import opened Common
  import opened Models
  import opened Text

  // ------------------------------------------------------- name normal form

  /** First character upper-cased, the rest lower-cased. */
  function Capitalize(w: string): (r: string)
    requires w != []
    ensures |r| == |w| && r[0] == ToUpperChar(w[0])
    ensures forall i :: 1 <= i < |w| ==> r[i] == ToLowerChar(w[i])
  {
    if |w| > 1 then [ToUpperChar(w[0])] + ToLower(w[1..]) else ToUpper(w)
  }

  function CapitalizeAll(ws: seq<string>): (r: seq<string>)
    requires forall i :: 0 <= i < |ws| ==> ws[i] != []
    ensures |r| == |ws| && forall i :: 0 <= i < |ws| ==> r[i] == Capitalize(ws[i])
  {
    seq(|ws|, i requires 0 <= i < |ws| => Capitalize(ws[i]))
  }

  /** `normalize_guest_name`: empty stays empty; otherwise whitespace is
      trimmed and collapsed, and every word capitalized and joined by one
      space. */
  function NormalizeGuestName(name: string): string
  {
    if name == "" then ""
    else
      var words := Words(CollapseWhitespace(Trim(name, Python)));
      Join(CapitalizeAll(words), " ")
  }

  /** No whitespace at either end, and every whitespace character is a single
      space followed by a non-whitespace character. */
  predicate SingleSpaced(s: string) {
    (s == [] || (!IsWhitespace(s[0]) && !IsWhitespace(s[|s| - 1])))
    && forall i :: 0 <= i < |s| && IsWhitespace(s[i]) ==> s[i] == ' ' && i + 1 < |s| && !IsWhitespace(s[i + 1])
  }

  predicate AllWords(parts: seq<string>) {
    forall i :: 0 <= i < |parts| ==> parts[i] != [] && NoWhitespace(parts[i])
  }

  /** A single word is its own word list. */
  lemma WordsOfWord(w: string)
    requires w != [] && NoWhitespace(w)
    ensures Words(w) == [w]
  {
    TakeWordOfConcat(w, []);
    assert w + [] == w;
    assert w[|w|..] == [];
  }

  /** Joining words with single spaces and splitting again gives the words back. */
  lemma {:induction false} WordsJoin(parts: seq<string>)
    requires AllWords(parts)
    ensures Words(Join(parts, " ")) == parts
    decreases |parts|
  {
    if |parts| == 1 {
      WordsOfWord(parts[0]);
    } else if |parts| > 1 {
      var rest := Join(parts[1..], " ");
      WordsJoin(parts[1..]);
      var s := parts[0] + (" " + rest);
      assert Join(parts, " ") == s;
      TakeWordOfConcat(parts[0], " " + rest);
      assert s[|parts[0]|..] == " " + rest;
      assert (" " + rest)[1..] == rest;
      assert s[0] == parts[0][0];
    }
  }

  /** Joining words with single spaces yields a single-spaced text. */
  lemma {:induction false} JoinSingleSpaced(parts: seq<string>)
    requires AllWords(parts)
    ensures SingleSpaced(Join(parts, " "))
    ensures parts != [] ==> Join(parts, " ") != [] && Join(parts, " ")[0] == parts[0][0]
    decreases |parts|
  {
    if |parts| > 1 {
      var w := parts[0];
      var rest := Join(parts[1..], " ");
      JoinSingleSpaced(parts[1..]);
      var s := w + " " + rest;
      assert Join(parts, " ") == s;
      assert forall i :: 0 <= i < |w| ==> s[i] == w[i] && !IsWhitespace(s[i]);
      forall i | |w| <= i < |s| && IsWhitespace(s[i])
        ensures s[i] == ' ' && i + 1 < |s| && !IsWhitespace(s[i + 1])
      {
        if i == |w| {
          assert s[i + 1] == rest[0];
        } else {
          assert s[i] == rest[i - |w| - 1];
          assert s[i + 1] == rest[i - |w|];
        }
      }
      assert s[|s| - 1] == rest[|rest| - 1];
    }
  }

  /** The word list of a text survives trimming and collapsing. */
  lemma WordsNormalized(name: string)
    ensures Words(CollapseWhitespace(Trim(name, Python))) == Words(name)
  {
    WordsCollapse(Trim(name, Python));
    WordsTrim(name);
  }

  lemma CapitalizedWords(ws: seq<string>)
    requires AllWords(ws)
    ensures AllWords(CapitalizeAll(ws))
  {
    forall i, j | 0 <= i < |ws| && 0 <= j < |ws[i]| ensures !IsWhitespace(CapitalizeAll(ws)[i][j]) {
      CaseKeepsWhitespace(ws[i][j]);
    }
  }

  /** The normal form is single-spaced and has the input's words, in order,
      each with its first character upper-cased and the rest lower-cased; it
      is empty exactly when the input has no words. */
  lemma NormalizeGuestNameShape(name: string)
    ensures var r := NormalizeGuestName(name);
      SingleSpaced(r)
      && Words(r) == CapitalizeAll(Words(name))
      && (r == "" <==> Words(name) == [])
  {
    var words := Words(CollapseWhitespace(Trim(name, Python)));
    WordsNormalized(name);
    CapitalizedWords(words);
    JoinSingleSpaced(CapitalizeAll(words));
    WordsJoin(CapitalizeAll(words));
    if name == "" {
      assert Words(name) == [];
    }
  }

  /** The word count of the normal form is the whitespace-split count of the input. */
  lemma NormalizeGuestNameWordCount(name: string)
    ensures |Words(NormalizeGuestName(name))| == |Words(name)|
  {
    NormalizeGuestNameShape(name);
  }

  lemma CaseIdempotent(c: char)
    ensures ToUpperChar(ToUpperChar(c)) == ToUpperChar(c)
    ensures ToLowerChar(ToLowerChar(c)) == ToLowerChar(c)
  {
  }

  lemma CapitalizeIdempotent(w: string)
    requires w != []
    ensures Capitalize(Capitalize(w)) == Capitalize(w)
  {
    var c := Capitalize(w);
    CaseIdempotent(w[0]);
    forall i | 1 <= i < |w| ensures Capitalize(c)[i] == c[i] {
      CaseIdempotent(w[i]);
    }
  }

  /** The normal form is the input's words, capitalized, joined by single spaces. */
  lemma NormalizeAsJoin(name: string)
    ensures NormalizeGuestName(name) == Join(CapitalizeAll(Words(name)), " ")
  {
    WordsNormalized(name);
  }

  /** Normalizing a normal form changes nothing. */
  lemma NormalizeGuestNameIdempotent(name: string)
    ensures NormalizeGuestName(NormalizeGuestName(name)) == NormalizeGuestName(name)
  {
    var ws := Words(name);
    var once := CapitalizeAll(ws);
    var r := Join(once, " ");
    NormalizeAsJoin(name);
    CapitalizedWords(ws);
    WordsJoin(once);
    NormalizeAsJoin(r);
    var twice := CapitalizeAll(once);
    forall i | 0 <= i < |ws| ensures twice[i] == once[i] {
      CapitalizeIdempotent(ws[i]);
    }
    assert twice == once;
  }

  /** Leading whitespace does not change the word list. */
  lemma {:induction false} WordsLeadingWhitespace(gap: string, s: string)
    requires forall i :: 0 <= i < |gap| ==> IsWhitespace(gap[i])
    ensures Words(gap + s) == Words(s)
    decreases |gap|
  {
    if gap != [] {
      assert (gap + s)[0] == gap[0];
      assert (gap + s)[1..] == gap[1..] + s;
      assert IsWhitespace((gap + s)[0]);
      assert Words(gap + s) == Words((gap + s)[1..]);
      WordsLeadingWhitespace(gap[1..], s);
    } else {
      assert gap + s == s;
    }
  }

  /** Two words separated by a whitespace run. */
  lemma TwoWords(a: string, gap: string, b: string)
    requires a != [] && NoWhitespace(a) && b != [] && NoWhitespace(b)
    requires gap != [] && forall i :: 0 <= i < |gap| ==> IsWhitespace(gap[i])
    ensures Words(a + gap + b) == [a, b]
  {
    var s := a + (gap + b);
    assert a + gap + b == s;
    TakeWordOfConcat(a, gap + b);
    assert s[0] == a[0];
    assert Words(s) == [a] + Words(s[|a|..]);
    assert s[|a|..] == gap + b;
    WordsLeadingWhitespace(gap, b);
    WordsOfWord(b);
  }

  lemma CapitalizeOf(w: string, r: string)
    requires w != [] && |r| == |w| && r[0] == ToUpperChar(w[0])
    requires forall i :: 1 <= i < |w| ==> r[i] == ToLowerChar(w[i])
    ensures Capitalize(w) == r
  {
  }

  lemma JoinTwo(a: string, b: string, sep: string)
    ensures Join([a, b], sep) == a + sep + b
  {
    assert [a, b][1..] == [b];
  }

  lemma JoinedIvanIvanov()
    ensures Join(["Иван", "Иванов"], " ") == "Иван Иванов"
  {
    JoinTwo("Иван", "Иванов", " ");
  }

  lemma CapitalizedUpperCase()
    ensures CapitalizeAll(["ИВАН", "ИВАНОВ"]) == ["Иван", "Иванов"]
  {
    CapitalizeOf("ИВАН", "Иван");
    CapitalizeOf("ИВАНОВ", "Иванов");
  }

  lemma CapitalizedLowerCase()
    ensures CapitalizeAll(["иван", "иванов"]) == ["Иван", "Иванов"]
  {
    CapitalizeOf("иван", "Иван");
    CapitalizeOf("иванов", "Иванов");
  }

  /** The examples of the function's documentation. */
  lemma NormalizeUpperCaseExample(name: string)
    requires name == "ИВАН ИВАНОВ"
    ensures NormalizeGuestName(name) == "Иван Иванов"
  {
    assert name == "ИВАН" + " " + "ИВАНОВ";
    TwoWords("ИВАН", " ", "ИВАНОВ");
    NormalizeAsJoin(name);
    CapitalizedUpperCase();
    JoinedIvanIvanov();
  }

  lemma NormalizeDoubleSpaceExample(name: string)
    requires name == "иван  иванов"
    ensures NormalizeGuestName(name) == "Иван Иванов"
  {
    assert name == "иван" + "  " + "иванов";
    TwoWords("иван", "  ", "иванов");
    NormalizeAsJoin(name);
    CapitalizedLowerCase();
    JoinedIvanIvanov();
  }

  /** Two words with whitespace runs before, between and after them. */
  lemma PaddedTwoWords(lead: string, a: string, gap: string, b: string, c: char, d: char)
    requires a != [] && NoWhitespace(a) && b != [] && NoWhitespace(b)
    requires gap != [] && forall i :: 0 <= i < |gap| ==> IsWhitespace(gap[i])
    requires forall i :: 0 <= i < |lead| ==> IsWhitespace(lead[i])
    requires IsWhitespace(c) && IsWhitespace(d)
    ensures Words(lead + (a + gap + b + [c] + [d])) == [a, b]
  {
    TwoWords(a, gap, b);
    WordsTrailingWhitespace(a + gap + b, c);
    WordsTrailingWhitespace(a + gap + b + [c], d);
    WordsLeadingWhitespace(lead, a + gap + b + [c] + [d]);
  }

  /** A name of two words already in capitalized form normalizes to them,
      joined by one space. */
  lemma NormalizeOfTwoWords(name: string, a: string, b: string)
    requires a != [] && b != [] && Words(name) == [a, b]
    requires Capitalize(a) == a && Capitalize(b) == b
    ensures NormalizeGuestName(name) == a + " " + b
  {
    var ws := Words(name);
    assert CapitalizeAll(ws) == [a, b] by {
      assert |CapitalizeAll(ws)| == 2;
    }
    assert Join(CapitalizeAll(ws), " ") == a + " " + b by {
      JoinTwo(a, b, " ");
    }
    NormalizeAsJoin(name);
  }

  lemma PaddedExampleWords(name: string)
    requires name == "  Петрова Мария  "
    ensures Words(name) == ["Петрова", "Мария"]
  {
    assert name == "  " + ("Петрова" + " " + "Мария" + [' '] + [' ']);
    PaddedTwoWords("  ", "Петрова", " ", "Мария", ' ', ' ');
  }

  lemma PaddedExampleCapitalized()
    ensures Capitalize("Петрова") == "Петрова" && Capitalize("Мария") == "Мария"
  {
    CapitalizeOf("Петрова", "Петрова");
    CapitalizeOf("Мария", "Мария");
  }

  lemma NormalizePaddedExample(name: string)
    requires name == "  Петрова Мария  "
    ensures NormalizeGuestName(name) == "Петрова" + " " + "Мария"
  {
    PaddedExampleWords(name);
    PaddedExampleCapitalized();
    NormalizeOfTwoWords(name, "Петрова", "Мария");
  }

  // ---------------------------------------------------- duplicate groups

  /** A guest row annotated with the number of bookings that refer to it. */
  datatype RankedGuest = RankedGuest(guest: Guest, bookingCount: nat)

  /** One group of likely duplicates: the primary guest, the others, and the
      number of bookings of the whole group. The similarity scores of the
      source are not modelled. */
  datatype DuplicateGroup = DuplicateGroup(primary: RankedGuest, duplicates: seq<RankedGuest>, totalBookings: nat)

  predicate DistinctGuests(s: seq<RankedGuest>) {
    forall i, j :: 0 <= i < j < |s| ==> s[i].guest.id != s[j].guest.id
  }

  function IdsOf(s: seq<RankedGuest>): set<Id> {
    set x | x in s :: x.guest.id
  }

  function SumCounts(s: seq<RankedGuest>): nat {
    if s == [] then 0 else s[0].bookingCount + SumCounts(s[1..])
  }

  /** Python's `max` by booking count: the first member of largest count. */
  function IndexOfMax(s: seq<RankedGuest>): (k: nat)
    requires s != []
    ensures k < |s|
    ensures forall j :: 0 <= j < |s| ==> s[j].bookingCount <= s[k].bookingCount
    ensures forall j :: 0 <= j < k ==> s[j].bookingCount < s[k].bookingCount
  {
    if |s| == 1 then 0
    else
      var m := IndexOfMax(s[1..]) + 1;
      if s[m].bookingCount > s[0].bookingCount then m else 0
  }

  /** The members whose key differs from `id`, in order. */
  function WithoutGuest(s: seq<RankedGuest>, id: Id): (r: seq<RankedGuest>)
    ensures forall x :: x in r <==> x in s && x.guest.id != id
    ensures |r| <= |s|
  {
    if s == [] then []
    else if s[0].guest.id == id then WithoutGuest(s[1..], id)
    else [s[0]] + WithoutGuest(s[1..], id)
  }

  /** Removing the one member with a given key from a list of distinct keys
      removes exactly one element and takes its count out of the sum. */
  lemma {:induction false} RemoveOne(s: seq<RankedGuest>, k: nat)
    requires DistinctGuests(s) && k < |s|
    ensures |WithoutGuest(s, s[k].guest.id)| == |s| - 1
    ensures SumCounts(s) == s[k].bookingCount + SumCounts(WithoutGuest(s, s[k].guest.id))
    decreases |s|
  {
    var id := s[k].guest.id;
    if k == 0 {
      NoneRemoved(s[1..], id);
    } else {
      RemoveOne(s[1..], k - 1);
      assert s[1..][k - 1] == s[k];
    }
  }

  /** Filtering keeps the keys distinct. */
  lemma {:induction false} WithoutGuestDistinct(s: seq<RankedGuest>, id: Id)
    requires DistinctGuests(s)
    ensures DistinctGuests(WithoutGuest(s, id))
    decreases |s|
  {
    if s != [] {
      WithoutGuestDistinct(s[1..], id);
      var t := WithoutGuest(s[1..], id);
      if s[0].guest.id != id {
        var r := [s[0]] + t;
        forall j | 0 < j < |r| ensures r[j].guest.id != s[0].guest.id {
          assert r[j] == t[j - 1] && t[j - 1] in s[1..];
        }
      }
    }
  }

  lemma WithoutGuestIds(s: seq<RankedGuest>, id: Id)
    ensures IdsOf(WithoutGuest(s, id)) == IdsOf(s) - {id}
  {
  }

  /** When no member has the key, nothing is removed. */
  lemma {:induction false} NoneRemoved(s: seq<RankedGuest>, id: Id)
    requires forall x :: x in s ==> x.guest.id != id
    ensures WithoutGuest(s, id) == s
    decreases |s|
  {
    if s != [] {
      NoneRemoved(s[1..], id);
      assert s == [s[0]] + s[1..];
    }
  }

  function MemberIds(g: DuplicateGroup): set<Id> {
    {g.primary.guest.id} + IdsOf(g.duplicates)
  }

  /** The promises of a group: at least one duplicate, none of them the
      primary, distinct keys, no duplicate with more bookings than the
      primary, and the total the sum over all members. */
  predicate GroupOk(g: DuplicateGroup) {
    |g.duplicates| >= 1
    && DistinctGuests(g.duplicates)
    && (forall x :: x in g.duplicates ==> x.guest.id != g.primary.guest.id && x.bookingCount <= g.primary.bookingCount)
    && g.totalBookings == g.primary.bookingCount + SumCounts(g.duplicates)
  }

  predicate MembersFrom(g: DuplicateGroup, ranked: seq<RankedGuest>) {
    g.primary in ranked && forall x :: x in g.duplicates ==> x in ranked
  }

  predicate GroupsDisjoint(groups: seq<DuplicateGroup>) {
    forall a, b :: 0 <= a < b < |groups| ==> MemberIds(groups[a]) !! MemberIds(groups[b])
  }

  function AllMemberIds(groups: seq<DuplicateGroup>): (r: set<Id>)
    ensures forall a :: 0 <= a < |groups| ==> MemberIds(groups[a]) <= r
  {
    if groups == [] then {}
    else AllMemberIds(groups[..|groups| - 1]) + MemberIds(groups[|groups| - 1])
  }

  lemma AppendGroup(groups: seq<DuplicateGroup>, g: DuplicateGroup)
    requires GroupsDisjoint(groups) && MemberIds(g) !! AllMemberIds(groups)
    ensures GroupsDisjoint(groups + [g])
    ensures AllMemberIds(groups + [g]) == AllMemberIds(groups) + MemberIds(g)
  {
    assert (groups + [g])[..|groups|] == groups;
  }

  /** The group formed around `leader` with the guests found similar to it:
      the primary is the first member of largest count, the duplicates are
      the other members in order, and the total sums all counts. */
  function GroupOf(leader: RankedGuest, similar: seq<RankedGuest>): (g: DuplicateGroup)
    requires similar != [] && DistinctGuests([leader] + similar)
    ensures GroupOk(g)
    ensures MemberIds(g) == {leader.guest.id} + IdsOf(similar)
    ensures g.primary in [leader] + similar && forall x :: x in g.duplicates ==> x in [leader] + similar
  {
    var all := [leader] + similar;
    var k := IndexOfMax(all);
    RemoveOne(all, k);
    WithoutGuestDistinct(all, all[k].guest.id);
    WithoutGuestIds(all, all[k].guest.id);
    assert IdsOf(all) == {leader.guest.id} + IdsOf(similar);
    DuplicateGroup(all[k], WithoutGuest(all, all[k].guest.id), SumCounts(all))
  }

  /** The guests of `ranked` the scan around `leader` takes, in order: not
      the leader itself, not yet in a group, and similar to the leader. */
  function SimilarTo(ranked: seq<RankedGuest>, leader: RankedGuest, processed: set<Id>,
                     similar: (string, string) -> bool): (r: seq<RankedGuest>)
    ensures forall x :: x in r <==>
      x in ranked && x.guest.id != leader.guest.id && x.guest.id !in processed
      && similar(leader.guest.displayName, x.guest.displayName)
  {
    if ranked == [] then []
    else
      var init := SimilarTo(ranked[..|ranked| - 1], leader, processed, similar);
      var x := ranked[|ranked| - 1];
      if x.guest.id != leader.guest.id && x.guest.id !in processed && similar(leader.guest.displayName, x.guest.displayName)
      then init + [x] else init
  }

  /** The inner scan of `find_duplicate_groups`: collects, in order, every
      guest similar to the leader that is neither the leader nor already in a
      group, and marks it as grouped. */
  method CollectSimilar(ranked: seq<RankedGuest>, leader: RankedGuest, processed: set<Id>,
                        similar: (string, string) -> bool)
    returns (found: seq<RankedGuest>, marked: set<Id>)
    requires DistinctGuests(ranked)
    ensures found == SimilarTo(ranked, leader, processed, similar)
    ensures DistinctGuests(found)
    ensures marked == processed + IdsOf(found)
  {
    found := [];
    marked := processed;
    for j := 0 to |ranked|
      invariant found == SimilarTo(ranked[..j], leader, processed, similar)
      invariant DistinctGuests(found)
      invariant marked == processed + IdsOf(found)
    {
      var other := ranked[j];
      assert ranked[..j + 1][..j] == ranked[..j];
      if other.guest.id != leader.guest.id && other.guest.id !in marked {
        if similar(leader.guest.displayName, other.guest.displayName) {
          assert IdsOf(found + [other]) == IdsOf(found) + {other.guest.id};
          found := found + [other];
          marked := marked + {other.guest.id};
        }
      } else if other.guest.id != leader.guest.id {
        assert other.guest.id !in IdsOf(found) by {
          forall x | x in found ensures x.guest.id != other.guest.id {
            var m :| 0 <= m < j && ranked[m] == x;
          }
        }
      }
    }
    assert ranked[..|ranked|] == ranked;
  }

  /** What the outer loop of `find_duplicate_groups` keeps: the processed
      keys are exactly the grouped ones, every group is well formed and built
      from the input, and the groups are disjoint. */
  predicate Grouped(ranked: seq<RankedGuest>, groups: seq<DuplicateGroup>, processed: set<Id>) {
    processed == AllMemberIds(groups)
    && (forall g :: g in groups ==> GroupOk(g) && MembersFrom(g, ranked))
    && GroupsDisjoint(groups)
  }

  /** The leader and the guests found similar to it are distinct guests. */
  lemma FoundWithLeaderDistinct(ranked: seq<RankedGuest>, processed: set<Id>, leader: RankedGuest,
                                similar: (string, string) -> bool)
    requires DistinctGuests(SimilarTo(ranked, leader, processed, similar))
    ensures DistinctGuests([leader] + SimilarTo(ranked, leader, processed, similar))
  {
    var found := SimilarTo(ranked, leader, processed, similar);
    var all := [leader] + found;
    forall j | 0 < j < |all| ensures all[j].guest.id != leader.guest.id {
      assert all[j] in found;
    }
  }

  /** The guests found similar are not yet grouped. */
  lemma FoundUngrouped(ranked: seq<RankedGuest>, processed: set<Id>, leader: RankedGuest,
                       similar: (string, string) -> bool)
    ensures IdsOf(SimilarTo(ranked, leader, processed, similar)) !! processed
  {
    var found := SimilarTo(ranked, leader, processed, similar);
    forall id | id in IdsOf(found) ensures id !in processed {
      var x :| x in found && x.guest.id == id;
    }
  }

  /** The group around a leader of `ranked` is built from `ranked`. */
  lemma GroupFromRanked(ranked: seq<RankedGuest>, processed: set<Id>, leader: RankedGuest,
                        similar: (string, string) -> bool)
    requires leader in ranked
    requires SimilarTo(ranked, leader, processed, similar) != []
    requires DistinctGuests([leader] + SimilarTo(ranked, leader, processed, similar))
    ensures MembersFrom(GroupOf(leader, SimilarTo(ranked, leader, processed, similar)), ranked)
  {
    var found := SimilarTo(ranked, leader, processed, similar);
    var all := [leader] + found;
    forall x | x in all ensures x in ranked {
      if x != leader { assert x in found; }
    }
  }

  /** Adding the group of a leader not yet grouped keeps the loop's promises. */
  lemma AddGroup(ranked: seq<RankedGuest>, groups: seq<DuplicateGroup>, processed: set<Id>,
                 leader: RankedGuest, similar: (string, string) -> bool)
    requires Grouped(ranked, groups, processed) && leader in ranked && leader.guest.id !in processed
    requires DistinctGuests(SimilarTo(ranked, leader, processed, similar))
    requires SimilarTo(ranked, leader, processed, similar) != []
    ensures var found := SimilarTo(ranked, leader, processed, similar);
      DistinctGuests([leader] + found)
      && Grouped(ranked, groups + [GroupOf(leader, found)], processed + IdsOf(found) + {leader.guest.id})
  {
    var found := SimilarTo(ranked, leader, processed, similar);
    FoundWithLeaderDistinct(ranked, processed, leader, similar);
    FoundUngrouped(ranked, processed, leader, similar);
    GroupFromRanked(ranked, processed, leader, similar);
    var g := GroupOf(leader, found);
    AppendGroup(groups, g);
    var groups' := groups + [g];
    forall h | h in groups' ensures GroupOk(h) && MembersFrom(h, ranked) {
      if h != g { assert h in groups; }
    }
  }

  /** Keys are distinct in the guests found similar, as they are in the input. */
  lemma {:induction false} SimilarToDistinct(ranked: seq<RankedGuest>, leader: RankedGuest, processed: set<Id>,
                                             similar: (string, string) -> bool)
    requires DistinctGuests(ranked)
    ensures DistinctGuests(SimilarTo(ranked, leader, processed, similar))
    decreases |ranked|
  {
    if ranked != [] {
      var p := ranked[..|ranked| - 1];
      var x := ranked[|ranked| - 1];
      SimilarToDistinct(p, leader, processed, similar);
      var init := SimilarTo(p, leader, processed, similar);
      forall y | y in init ensures y.guest.id != x.guest.id {
        var k :| 0 <= k < |p| && p[k] == y;
        assert ranked[k] == y;
      }
      var r := init + [x];
      forall i, j | 0 <= i < j < |r| ensures r[i].guest.id != r[j].guest.id {
        if j == |init| { assert r[i] in init; }
      }
    }
  }

  /** The state of the outer scan: the groups found and the keys grouped. */
  datatype Scan = Scan(groups: seq<DuplicateGroup>, processed: set<Id>)

  /** One turn of the outer loop of `find_duplicate_groups`: a guest already
      grouped is skipped; otherwise the ungrouped guests similar to it are
      collected and, if there are any, they form a group with it. */
  function Turn(ranked: seq<RankedGuest>, s: Scan, leader: RankedGuest, similar: (string, string) -> bool): (r: Scan)
    requires DistinctGuests(ranked)
    ensures s.processed <= r.processed && s.groups <= r.groups
  {
    if leader.guest.id in s.processed then s
    else
      var found := SimilarTo(ranked, leader, s.processed, similar);
      if found == [] then s
      else
        SimilarToDistinct(ranked, leader, s.processed, similar);
        FoundWithLeaderDistinct(ranked, s.processed, leader, similar);
        Scan(s.groups + [GroupOf(leader, found)], s.processed + IdsOf(found) + {leader.guest.id})
  }

  /** The scan after the first `n` guests of `ranked` had their turn. */
  function ScanTurns(ranked: seq<RankedGuest>, n: nat, similar: (string, string) -> bool): (s: Scan)
    requires DistinctGuests(ranked) && n <= |ranked|
    decreases n
  {
    if n == 0 then Scan([], {})
    else Turn(ranked, ScanTurns(ranked, n - 1, similar), ranked[n - 1], similar)
  }

  /** The groups `find_duplicate_groups` returns for `ranked`. */
  function DuplicateGroupsOf(ranked: seq<RankedGuest>, similar: (string, string) -> bool): seq<DuplicateGroup>
    requires DistinctGuests(ranked)
  {
    ScanTurns(ranked, |ranked|, similar).groups
  }

  /** A turn of a guest of `ranked` keeps the loop's promises. */
  lemma TurnGrouped(ranked: seq<RankedGuest>, s: Scan, leader: RankedGuest, similar: (string, string) -> bool)
    requires DistinctGuests(ranked) && leader in ranked && Grouped(ranked, s.groups, s.processed)
    ensures var r := Turn(ranked, s, leader, similar); Grouped(ranked, r.groups, r.processed)
  {
    if leader.guest.id !in s.processed && SimilarTo(ranked, leader, s.processed, similar) != [] {
      SimilarToDistinct(ranked, leader, s.processed, similar);
      AddGroup(ranked, s.groups, s.processed, leader, similar);
    }
  }

  /** Every stage of the scan keeps the loop's promises. */
  lemma {:induction false} ScanGrouped(ranked: seq<RankedGuest>, n: nat, similar: (string, string) -> bool)
    requires DistinctGuests(ranked) && n <= |ranked|
    ensures var s := ScanTurns(ranked, n, similar); Grouped(ranked, s.groups, s.processed)
    decreases n
  {
    if n > 0 {
      ScanGrouped(ranked, n - 1, similar);
      var s := ScanTurns(ranked, n - 1, similar);
      TurnGrouped(ranked, s, ranked[n - 1], similar);
      assert ScanTurns(ranked, n, similar) == Turn(ranked, s, ranked[n - 1], similar);
    }
  }

  /** A guest grouped by some turn stays grouped. */
  lemma {:induction false} ScanGrows(ranked: seq<RankedGuest>, n: nat, m: nat, similar: (string, string) -> bool)
    requires DistinctGuests(ranked) && n <= m <= |ranked|
    ensures ScanTurns(ranked, n, similar).processed <= ScanTurns(ranked, m, similar).processed
    decreases m
  {
    if n < m {
      ScanGrows(ranked, n, m - 1, similar);
      var prev := ScanTurns(ranked, m - 1, similar);
      assert ScanTurns(ranked, m, similar) == Turn(ranked, prev, ranked[m - 1], similar);
    }
  }

  /** `g` has a member `leader` to which every other member is similar. */
  predicate LedBy(g: DuplicateGroup, leader: RankedGuest, similar: (string, string) -> bool) {
    leader.guest.id in MemberIds(g)
    && (g.primary.guest.id != leader.guest.id ==> similar(leader.guest.displayName, g.primary.guest.displayName))
    && forall x :: x in g.duplicates && x.guest.id != leader.guest.id ==>
         similar(leader.guest.displayName, x.guest.displayName)
  }

  /** The group formed at a guest's turn is led by that guest. */
  lemma NewGroupLed(ranked: seq<RankedGuest>, processed: set<Id>, leader: RankedGuest,
                    similar: (string, string) -> bool)
    requires SimilarTo(ranked, leader, processed, similar) != []
    requires DistinctGuests([leader] + SimilarTo(ranked, leader, processed, similar))
    ensures LedBy(GroupOf(leader, SimilarTo(ranked, leader, processed, similar)), leader, similar)
  {
    var found := SimilarTo(ranked, leader, processed, similar);
    var g := GroupOf(leader, found);
    if g.primary.guest.id != leader.guest.id { assert g.primary in found; }
    forall x | x in g.duplicates && x.guest.id != leader.guest.id
      ensures similar(leader.guest.displayName, x.guest.displayName)
    {
      assert x in found;
    }
  }

  /** A group added by a guest's turn is led by that guest. */
  lemma TurnGroupLed(ranked: seq<RankedGuest>, s: Scan, leader: RankedGuest, similar: (string, string) -> bool)
    requires DistinctGuests(ranked)
    ensures forall a :: |s.groups| <= a < |Turn(ranked, s, leader, similar).groups| ==>
      LedBy(Turn(ranked, s, leader, similar).groups[a], leader, similar)
  {
    var found := SimilarTo(ranked, leader, s.processed, similar);
    if leader.guest.id !in s.processed && found != [] {
      SimilarToDistinct(ranked, leader, s.processed, similar);
      FoundWithLeaderDistinct(ranked, s.processed, leader, similar);
      NewGroupLed(ranked, s.processed, leader, similar);
      assert Turn(ranked, s, leader, similar).groups == s.groups + [GroupOf(leader, found)];
    }
  }

  /** `g` is led by one of `leaders`. */
  predicate LedByOneOf(g: DuplicateGroup, leaders: seq<RankedGuest>, similar: (string, string) -> bool) {
    exists i :: 0 <= i < |leaders| && LedBy(g, leaders[i], similar)
  }

  /** Every group found after `n` turns is led by one of the first `n` guests:
      each member is similar to that guest. */
  lemma {:induction false} GroupsLed(ranked: seq<RankedGuest>, n: nat, similar: (string, string) -> bool)
    requires DistinctGuests(ranked) && n <= |ranked|
    ensures forall a :: 0 <= a < |ScanTurns(ranked, n, similar).groups| ==>
      LedByOneOf(ScanTurns(ranked, n, similar).groups[a], ranked[..n], similar)
    decreases n
  {
    if n > 0 {
      GroupsLed(ranked, n - 1, similar);
      var s := ScanTurns(ranked, n - 1, similar);
      TurnKeepsLed(ranked, s, n, similar);
      assert ScanTurns(ranked, n, similar) == Turn(ranked, s, ranked[n - 1], similar);
    }
  }

  /** The turn of the `n`-th guest keeps every group led by one of the guests
      that had a turn. */
  lemma TurnKeepsLed(ranked: seq<RankedGuest>, s: Scan, n: nat, similar: (string, string) -> bool)
    requires DistinctGuests(ranked) && 0 < n <= |ranked|
    requires forall a :: 0 <= a < |s.groups| ==> LedByOneOf(s.groups[a], ranked[..n - 1], similar)
    ensures var t := Turn(ranked, s, ranked[n - 1], similar);
      forall a :: 0 <= a < |t.groups| ==> LedByOneOf(t.groups[a], ranked[..n], similar)
  {
    var leader := ranked[n - 1];
    var groups := Turn(ranked, s, leader, similar).groups;
    TurnGroupLed(ranked, s, leader, similar);
    forall a | 0 <= a < |groups| ensures LedByOneOf(groups[a], ranked[..n], similar) {
      if a < |s.groups| {
        assert groups[a] == s.groups[a];
        var i :| 0 <= i < n - 1 && LedBy(s.groups[a], ranked[..n - 1][i], similar);
        assert ranked[..n][i] == ranked[..n - 1][i];
      } else {
        assert ranked[..n][n - 1] == leader;
      }
    }
  }

  /** At its turn, a guest similar to another is grouped unless one of the
      two already is. */
  lemma TurnGroupsPair(ranked: seq<RankedGuest>, similar: (string, string) -> bool, i: nat, j: nat)
    requires DistinctGuests(ranked) && i < |ranked| && j < |ranked| && i != j
    requires similar(ranked[i].guest.displayName, ranked[j].guest.displayName)
    ensures var p := ScanTurns(ranked, i + 1, similar).processed;
      ranked[i].guest.id in p || ranked[j].guest.id in p
  {
    var s := ScanTurns(ranked, i, similar);
    assert ScanTurns(ranked, i + 1, similar) == Turn(ranked, s, ranked[i], similar);
    if ranked[i].guest.id !in s.processed && ranked[j].guest.id !in s.processed {
      assert ranked[j] in SimilarTo(ranked, ranked[i], s.processed, similar);
    }
  }

  /** The scan misses no group: of two distinct guests where the first is
      similar to the second, at least one ends up in a group. */
  lemma SimilarPairGrouped(ranked: seq<RankedGuest>, similar: (string, string) -> bool, i: nat, j: nat)
    requires DistinctGuests(ranked) && i < |ranked| && j < |ranked| && i != j
    requires similar(ranked[i].guest.displayName, ranked[j].guest.displayName)
    ensures var grouped := AllMemberIds(DuplicateGroupsOf(ranked, similar));
      ranked[i].guest.id in grouped || ranked[j].guest.id in grouped
  {
    TurnGroupsPair(ranked, similar, i, j);
    ScanGrows(ranked, i + 1, |ranked|, similar);
    ScanGrouped(ranked, |ranked|, similar);
  }

  /** `find_duplicate_groups` over the guests ranked by booking count, with
      the similarity threshold test as the predicate `similar`. Every group
      is well formed and built from the input, no guest is in two groups,
      and the groups are those of the turn-by-turn scan. */
  method FindDuplicateGroups(ranked: seq<RankedGuest>, similar: (string, string) -> bool)
    returns (groups: seq<DuplicateGroup>)
    requires DistinctGuests(ranked)
    ensures groups == DuplicateGroupsOf(ranked, similar)
    ensures forall g :: g in groups ==> GroupOk(g) && MembersFrom(g, ranked)
    ensures GroupsDisjoint(groups)
  {
    var processed: set<Id> := {};
    groups := [];
    for i := 0 to |ranked|
      invariant Scan(groups, processed) == ScanTurns(ranked, i, similar)
    {
      var guest := ranked[i];
      assert ScanTurns(ranked, i + 1, similar) == Turn(ranked, Scan(groups, processed), guest, similar);
      if guest.guest.id !in processed {
        var similarGuests, marked := CollectSimilar(ranked, guest, processed, similar);
        if similarGuests != [] {
          FoundWithLeaderDistinct(ranked, processed, guest, similar);
          var group := GroupOf(guest, similarGuests);
          groups := groups + [group];
          processed := marked + {guest.guest.id};
        } else {
          processed := marked;
        }
      }
    }
    ScanGrouped(ranked, |ranked|, similar);
  }

  // ---------------------------------------------------------------- merge

  /** `primary_display_name and primary_display_name.strip()`. */
  predicate NonBlank(replacement: Option<string>) {
    replacement.Some? && Trim(replacement.value, Python) != ""
  }

  /** The display name the primary guest has after the merge: the stripped
      replacement when that is not blank, its own name otherwise. */
  function MergedName(primary: Guest, replacement: Option<string>): (r: string)
    ensures NonBlank(replacement) ==> r == Trim(replacement.value, Python) && r != ""
    ensures !NonBlank(replacement) ==> r == primary.displayName
  {
    if replacement.Some? && replacement.value != "" && Trim(replacement.value, Python) != "" then Trim(replacement.value, Python)
    else primary.displayName
  }

  function GuestIds(guests: seq<Guest>): set<Id> {
    set g | g in guests :: g.id
  }

  function GuestNames(guests: seq<Guest>): seq<string> {
    seq(|guests|, i requires 0 <= i < |guests| => guests[i].displayName)
  }

  /** One booking row after both bulk updates: a row of a duplicate points to
      the primary and carries its name; a row without a guest whose name is a
      duplicate's name takes the primary's name; any other row is kept. */
  function Reassigned(b: Booking, dupIds: set<Id>, dupNames: seq<string>, primaryId: Id, name: string): Booking
  {
    if b.guest.Some? && b.guest.value in dupIds then b.(guest := Some(primaryId), guestName := name)
    else if b.guest.None? && b.guestName in dupNames then b.(guestName := name)
    else b
  }

  function ReassignAll(rows: seq<Booking>, dupIds: set<Id>, dupNames: seq<string>, primaryId: Id, name: string): (r: seq<Booking>)
    ensures |r| == |rows| && forall i :: 0 <= i < |rows| ==> r[i] == Reassigned(rows[i], dupIds, dupNames, primaryId, name)
  {
    seq(|rows|, i requires 0 <= i < |rows| => Reassigned(rows[i], dupIds, dupNames, primaryId, name))
  }

  /** The number of rows whose guest is one of `ids`. */
  function CountLinked(rows: seq<Booking>, ids: set<Id>): nat {
    if rows == [] then 0
    else (if rows[0].guest.Some? && rows[0].guest.value in ids then 1 else 0) + CountLinked(rows[1..], ids)
  }

  /** The guest table after the primary's name is saved. */
  function Renamed(guests: seq<Guest>, primaryId: Id, name: string): (r: seq<Guest>)
    ensures |r| == |guests|
    ensures forall i :: 0 <= i < |guests| ==>
      r[i] == if guests[i].id == primaryId then guests[i].(displayName := name) else guests[i]
  {
    seq(|guests|, i requires 0 <= i < |guests| =>
      if guests[i].id == primaryId then guests[i].(displayName := name) else guests[i])
  }

  /** The guest table after deleting the rows with keys in `ids`. */
  function WithoutGuests(guests: seq<Guest>, ids: set<Id>): (r: seq<Guest>)
    ensures forall g :: g in r <==> g in guests && g.id !in ids
  {
    if guests == [] then []
    else if guests[0].id in ids then WithoutGuests(guests[1..], ids)
    else [guests[0]] + WithoutGuests(guests[1..], ids)
  }

  /** The guest table after the optional rename of the primary. */
  function GuestsRenamed(guests: seq<Guest>, primary: Guest, replacement: Option<string>): seq<Guest> {
    if NonBlank(replacement) then Renamed(guests, primary.id, MergedName(primary, replacement)) else guests
  }

  /** `merge_guests`: with no duplicates nothing changes and 0 is returned.
      Otherwise the primary's name is replaced by a non-blank stripped
      replacement, every booking of a duplicate moves to the primary with its
      name, guestless bookings under a duplicate's name take that name too,
      the duplicates are deleted, and the number of moved bookings is
      returned. */
  method MergeGuests(st: Store, primary: Guest, duplicates: seq<Guest>, replacement: Option<string>)
    returns (moved: nat)
    requires st.Valid()
    modifies st`guests, st`bookings
    ensures st.Valid()
    ensures duplicates == [] ==> moved == 0 && st.guests == old(st.guests) && st.bookings == old(st.bookings)
    ensures duplicates != [] ==>
      var ids := GuestIds(duplicates);
      var name := MergedName(primary, replacement);
      && moved == CountLinked(old(st.bookings), ids)
      && st.bookings == ReassignAll(old(st.bookings), ids, GuestNames(duplicates), primary.id, name)
      && st.guests == WithoutGuests(GuestsRenamed(old(st.guests), primary, replacement), ids)
  {
    if duplicates == [] {
      return 0;
    }
    var name := MergedName(primary, replacement);
    if NonBlank(replacement) {
      st.guests := Renamed(st.guests, primary.id, name);
    }
    var ids := GuestIds(duplicates);
    var names := GuestNames(duplicates);
    moved := CountLinked(st.bookings, ids);
    ReassignKeepsValid(st.catalog, st.bookings, st.nextBookingId, st.series, ids, names, primary.id, name);
    st.bookings := ReassignAll(st.bookings, ids, names, primary.id, name);
    st.guests := WithoutGuests(st.guests, ids);
  }

  /** The bulk updates touch only the guest link and the name of a row. */
  lemma ReassignOnlyGuestFields(rows: seq<Booking>, ids: set<Id>, names: seq<string>, primaryId: Id, name: string, i: nat)
    requires i < |rows|
    ensures var r := ReassignAll(rows, ids, names, primaryId, name)[i];
      r.(guest := rows[i].guest, guestName := rows[i].guestName) == rows[i]
      && (rows[i].guest.Some? && rows[i].guest.value in ids ==> r.guest == Some(primaryId) && r.guestName == name)
      && (rows[i].guest.None? ==> r.guest.None? && (r.guestName == name || r.guestName == rows[i].guestName))
      && (rows[i].guest.Some? && rows[i].guest.value !in ids ==> r == rows[i])
  {
  }

  /** The bulk updates keep the booking table well formed: keys, the
      allocation counter and the derived end times are untouched. */
  lemma ReassignKeepsValid(cat: Catalog, rows: seq<Booking>, nextId: int, series: map<Id, BookingSeries>,
                           ids: set<Id>, names: seq<string>, primaryId: Id, name: string)
    requires BookingsValid(cat, rows, nextId) && SeriesLinked(rows, series)
    ensures var r := ReassignAll(rows, ids, names, primaryId, name);
      BookingsValid(cat, r, nextId) && SeriesLinked(r, series)
  {
    var r := ReassignAll(rows, ids, names, primaryId, name);
    forall i | 0 <= i < |r| ensures r[i].id == rows[i].id && r[i].series == rows[i].series && EndDerived(cat, r[i]) {
      ReassignedRow(cat, rows[i], ids, names, primaryId, name);
    }
    forall x | x in r ensures SeriesKnown(x, series) {
      var j :| 0 <= j < |r| && r[j] == x;
      assert rows[j] in rows;
    }
  }

  /** Reassigning a row changes only its guest and name. */
  lemma ReassignedRow(cat: Catalog, b: Booking, ids: set<Id>, names: seq<string>, primaryId: Id, name: string)
    requires EndDerived(cat, b)
    ensures var r := Reassigned(b, ids, names, primaryId, name);
      r.id == b.id && r.series == b.series && EndDerived(cat, r)
  {
  }

  /** After the merge no booking points to a duplicate (unless the primary
      is listed among them), and the primary gained exactly the moved
      bookings. */
  lemma {:induction false} MergeMovesAllBookings(rows: seq<Booking>, ids: set<Id>, names: seq<string>,
                                                 primaryId: Id, name: string)
    requires primaryId !in ids
    ensures var r := ReassignAll(rows, ids, names, primaryId, name);
      CountLinked(r, ids) == 0
      && CountLinked(r, {primaryId}) == CountLinked(rows, {primaryId}) + CountLinked(rows, ids)
    decreases |rows|
  {
    if rows != [] {
      var r := ReassignAll(rows, ids, names, primaryId, name);
      MergeMovesAllBookings(rows[1..], ids, names, primaryId, name);
      assert r[1..] == ReassignAll(rows[1..], ids, names, primaryId, name);
    }
  }

  /** After the merge the duplicates are gone and every other guest row is
      still there, the primary under its merged name. */
  lemma MergedGuests(guests: seq<Guest>, primary: Guest, replacement: Option<string>, ids: set<Id>)
    requires primary in guests && primary.id !in ids
    ensures var r := WithoutGuests(GuestsRenamed(guests, primary, replacement), ids);
      (forall g :: g in r ==> g.id !in ids)
      && primary.(displayName := MergedName(primary, replacement)) in r
      && (forall g :: g in guests && g.id !in ids && g.id != primary.id ==> g in r)
  {
    var k :| 0 <= k < |guests| && guests[k] == primary;
    var renamed := GuestsRenamed(guests, primary, replacement);
    assert renamed[k] == primary.(displayName := MergedName(primary, replacement));
    forall g | g in guests && g.id !in ids && g.id != primary.id ensures g in renamed {
      var j :| 0 <= j < |guests| && guests[j] == g;
      assert renamed[j] == g;
    }
  }
}
