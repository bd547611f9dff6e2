/** The simplified scorer of notes and raters; floats are modelled as reals. */
module NoteScoring {
  import opened Basics

  datatype Status = Helpful | NotHelpful | NeedsMoreRatings

  function Score(helpful: nat, total: nat): real {
    if total > 0 then (helpful as real / total as real) * Min(1.0, total as real / 10.0) else 0.0
  }

  function StatusOf(score: real, total: nat): Status {
    if score >= 0.6 && total >= 5 then Helpful
    else if score <= 0.3 && total >= 3 then NotHelpful
    else NeedsMoreRatings
  }

  // ----- The score -----

  lemma ScoreIsMin(helpful: nat, total: nat)
    requires 0 < total
    ensures Score(helpful, total) == Min(helpful as real / total as real, helpful as real / 10.0)
  {
    var h, t := helpful as real, total as real;
    Cancels(h, t);
    if total < 10 {
      Divides(h, t, 10.0);
    } else {
      Divides(h, 10.0, t);
    }
  }

  lemma Cancels(h: real, t: real)
    requires t > 0.0
    ensures (h / t) * (t / 10.0) == h / 10.0
  {
    assert (h / t) * t == h;
  }

  lemma Divides(h: real, small: real, big: real)
    requires h >= 0.0 && 0.0 < small <= big
    ensures h / big <= h / small
  {
    var q := h / small;
    assert q * small == h && q >= 0.0;
    assert q * small <= q * big;
    assert (h / big) * big == h;
    if h / big > q { assert (h / big) * big > q * big; }
  }

  lemma RatioBounds(h: real, t: real, q: real)
    requires t > 0.0
    ensures h / t >= q <==> h >= q * t
    ensures h / t <= q <==> h <= q * t
  {
    var r := h / t;
    assert r * t == h;
    Scales(r, q, t);
    Scales(q, r, t);
  }

  lemma Scales(a: real, b: real, t: real)
    requires t > 0.0
    ensures a <= b <==> a * t <= b * t
  {
    assert (b - a) * t == b * t - a * t;
  }

  /** The score reaches `q` exactly when both the share and the tenth of the helpful ratings do, and stays within `q`
    * exactly when one of them does. */
  lemma ScoreAgainst(helpful: nat, total: nat, q: real)
    requires 0 < total
    ensures Score(helpful, total) >= q <==> helpful as real >= q * total as real && helpful as real >= q * 10.0
    ensures Score(helpful, total) <= q <==> helpful as real <= q * total as real || helpful as real <= q * 10.0
  {
    ScoreIsMin(helpful, total);
    var h, t := helpful as real, total as real;
    RatioBounds(h, t, q);
    RatioBounds(h, 10.0, q);
  }

  /** A note is rated helpful exactly when it has at least six helpful ratings and they are at least three fifths of
    * all: the test for five ratings never decides. */
  lemma HelpfulIff(helpful: nat, total: nat)
    requires helpful <= total
    ensures StatusOf(Score(helpful, total), total) == Helpful <==> helpful >= 6 && 5 * helpful >= 3 * total
  {
    if total > 0 { ScoreAgainst(helpful, total, 0.6); }
  }

  /** A note is rated not helpful exactly when it has three ratings and either at most three helpful ones or at most
    * three tenths of helpful ones. */
  lemma NotHelpfulIff(helpful: nat, total: nat)
    requires helpful <= total
    ensures StatusOf(Score(helpful, total), total) == NotHelpful <==>
              total >= 3 && (helpful <= 3 || 10 * helpful <= 3 * total)
  {
    if total > 0 { ScoreAgainst(helpful, total, 0.3); }
  }

  lemma ScoreBounds(helpful: nat, total: nat)
    requires helpful <= total
    ensures 0.0 <= Score(helpful, total) <= 1.0
  {
    if total > 0 {
      ScoreAgainst(helpful, total, 0.0);
      ScoreAgainst(helpful, total, 1.0);
    }
  }

  lemma ScoreOfNothing(helpful: nat)
    ensures Score(helpful, 0) == 0.0
  {
  }

  /** One more helpful rating never lowers the score. */
  lemma HelpfulRatingNeverLowers(helpful: nat, total: nat)
    requires helpful <= total
    ensures Score(helpful, total) <= Score(helpful + 1, total + 1)
  {
    hide Score;
    ScoreOfNothing(helpful);
    ScoreBounds(helpful, total);
    ScoreBounds(helpful + 1, total + 1);
    if total > 0 {
      var q := Score(helpful, total);
      ScoreAgainst(helpful, total, q);
      ScoreAgainst(helpful + 1, total + 1, q);
      Distributes(q, total);
    }
  }

  /** One more unhelpful rating never raises it. */
  lemma UnhelpfulRatingNeverRaises(helpful: nat, total: nat)
    requires helpful <= total
    ensures Score(helpful, total + 1) <= Score(helpful, total)
  {
    var q := Score(helpful, total + 1);
    ScoreBounds(helpful, total);
    ScoreBounds(helpful, total + 1);
    ScoreAgainst(helpful, total + 1, q);
    if total > 0 {
      ScoreAgainst(helpful, total, q);
      Distributes(q, total);
    }
  }

  lemma Distributes(q: real, total: nat)
    ensures q * (total + 1) as real == q * total as real + q
  {
  }

  /** Further helpful ratings keep a helpful note helpful; further unhelpful ones keep a note that is not so. */
  lemma StatusSurvives(helpful: nat, total: nat, more: nat)
    requires helpful <= total
    ensures StatusOf(Score(helpful, total), total) == Helpful ==>
              StatusOf(Score(helpful + more, total + more), total + more) == Helpful
    ensures StatusOf(Score(helpful, total), total) == NotHelpful ==>
              StatusOf(Score(helpful, total + more), total + more) == NotHelpful
  {
    HelpfulIff(helpful, total);
    HelpfulIff(helpful + more, total + more);
    NotHelpfulIff(helpful, total);
    NotHelpfulIff(helpful, total + more);
  }

  // ----- Grouping rows by a key -----

  datatype Row = Row(key: int, marked: bool)

  function Total(rows: seq<Row>, key: int): nat {
    if rows == [] then 0
    else Total(rows[..|rows| - 1], key) + if rows[|rows| - 1].key == key then 1 else 0
  }

  function Marked(rows: seq<Row>, key: int): nat {
    if rows == [] then 0
    else
      var last := rows[|rows| - 1];
      Marked(rows[..|rows| - 1], key) + if last.key == key && last.marked then 1 else 0
  }

  function Keys(rows: seq<Row>): set<int> {
    set r | r in rows :: r.key
  }

  /** One group of a `groupby`: its key, the marked rows and all rows. */
  datatype Group = Group(key: int, marked: nat, total: nat)

  predicate IsGroup(g: Group, rows: seq<Row>) {
    g.marked == Marked(rows, g.key) && g.total == Total(rows, g.key)
  }

  function Sum(groups: seq<Group>): nat {
    if groups == [] then 0 else Sum(groups[..|groups| - 1]) + groups[|groups| - 1].total
  }

  method CountGroup(rows: seq<Row>, key: int) returns (marked: nat, total: nat)
    ensures marked == Marked(rows, key) && total == Total(rows, key)
  {
    marked, total := 0, 0;
    for i := 0 to |rows|
      invariant marked == Marked(rows[..i], key) && total == Total(rows[..i], key)
    {
      assert rows[..i + 1][..i] == rows[..i];
      if rows[i].key == key {
        total := total + 1;
        if rows[i].marked { marked := marked + 1; }
      }
    }
    assert rows[..|rows|] == rows;
  }

  /** The groups in ascending order of key: every key has one, and no row is lost or counted twice. */
  method GroupRows(rows: seq<Row>) returns (groups: seq<Group>)
    ensures Grouped(groups, rows, Keys(rows)) && Sum(groups) == |rows|
  {
    groups := [];
    var keys := Keys(rows);
    StartGrouping(rows);
    while keys != {}
      invariant Grouping(groups, rows, keys)
      decreases keys
    {
      var key := Smallest(keys);
      var marked, total := CountGroup(rows, key);
      GroupOneMore(groups, rows, keys, Group(key, marked, total));
      groups, keys := groups + [Group(key, marked, total)], keys - {key};
    }
    EndGrouping(groups, rows);
  }

  /** `groups` are the groups of the keys in `done`, in ascending order. */
  predicate Grouped(groups: seq<Group>, rows: seq<Row>, done: set<int>) {
    && (forall g | g in groups :: IsGroup(g, rows))
    && (forall i, j | 0 <= i < j < |groups| :: groups[i].key < groups[j].key)
    && (set g | g in groups :: g.key) == done
    && Sum(groups) == CountIn(rows, done)
  }

  /** The groups of the keys up to `keys` are done, `keys` are to come. */
  predicate Grouping(groups: seq<Group>, rows: seq<Row>, keys: set<int>) {
    && keys <= Keys(rows)
    && Grouped(groups, rows, Keys(rows) - keys)
    && forall g, k | g in groups && k in keys :: g.key < k
  }

  lemma StartGrouping(rows: seq<Row>)
    ensures Grouping([], rows, Keys(rows))
  {
    CountNone(rows);
    assert Keys(rows) - Keys(rows) == {};
  }

  lemma GroupOneMore(groups: seq<Group>, rows: seq<Row>, keys: set<int>, g: Group)
    requires Grouping(groups, rows, keys) && IsGroup(g, rows)
    requires g.key in keys && forall k | k in keys :: g.key <= k
    ensures Grouping(groups + [g], rows, keys - {g.key})
  {
    Remaining(Keys(rows), keys, g.key);
    GroupedMore(groups, rows, Keys(rows) - keys, g, groups + [g]);
  }

  lemma Remaining(all: set<int>, keys: set<int>, key: int)
    requires key in keys && keys <= all
    ensures all - (keys - {key}) == (all - keys) + {key}
  {
  }

  lemma GroupedMore(groups: seq<Group>, rows: seq<Row>, done: set<int>, g: Group, longer: seq<Group>)
    requires Grouped(groups, rows, done) && IsGroup(g, rows) && longer == groups + [g]
    requires g.key !in done && forall h | h in groups :: h.key < g.key
    ensures Grouped(longer, rows, done + {g.key})
  {
    AppendGroup(groups, g, longer);
    CountMore(rows, done, g.key);
  }

  lemma AppendGroup(groups: seq<Group>, g: Group, longer: seq<Group>)
    requires longer == groups + [g]
    ensures Sum(longer) == Sum(groups) + g.total
    ensures (set h | h in longer :: h.key) == (set h | h in groups :: h.key) + {g.key}
    ensures forall h | h in longer :: h in groups || h == g
  {
    assert longer[..|groups|] == groups && longer[|groups|] == g;
    assert g in longer && forall h | h in groups :: h in longer;
  }

  lemma EndGrouping(groups: seq<Group>, rows: seq<Row>)
    requires Grouping(groups, rows, {})
    ensures Grouped(groups, rows, Keys(rows)) && Sum(groups) == |rows|
  {
    assert Keys(rows) - {} == Keys(rows);
    CountAll(rows, Keys(rows));
  }

  method Smallest(keys: set<int>) returns (key: int)
    requires keys != {}
    ensures key in keys && forall k | k in keys :: key <= k
  {
    NonEmpty(keys);
    key :| key in keys;
    var rest := keys - {key};
    while rest != {}
      invariant rest <= keys && key in keys
      invariant forall k | k in keys && k !in rest :: key <= k
      decreases rest
    {
      NonEmpty(rest);
      var k :| k in rest;
      if k < key { key := k; }
      rest := rest - {k};
    }
  }

  /** The rows whose key is among `keys`. */
  function CountIn(rows: seq<Row>, keys: set<int>): nat {
    if rows == [] then 0
    else CountIn(rows[..|rows| - 1], keys) + if rows[|rows| - 1].key in keys then 1 else 0
  }

  lemma {:induction false} CountMore(rows: seq<Row>, keys: set<int>, key: int)
    requires key !in keys
    ensures CountIn(rows, keys + {key}) == CountIn(rows, keys) + Total(rows, key)
    decreases |rows|
  {
    if rows != [] {
      CountMore(rows[..|rows| - 1], keys, key);
    }
  }

  lemma {:induction false} CountNone(rows: seq<Row>)
    ensures CountIn(rows, {}) == 0
    decreases |rows|
  {
    if rows != [] {
      CountNone(rows[..|rows| - 1]);
    }
  }

  lemma {:induction false} CountAll(rows: seq<Row>, keys: set<int>)
    requires Keys(rows) <= keys
    ensures CountIn(rows, keys) == |rows|
    decreases |rows|
  {
    if rows != [] {
      var front := rows[..|rows| - 1];
      assert rows[|rows| - 1] in rows && forall r | r in front :: r in rows;
      assert rows[|rows| - 1].key in Keys(rows);
      assert Keys(front) <= Keys(rows);
      CountAll(front, keys);
    }
  }

  // ----- Notes -----

  datatype Rating = Rating(rater: int, noteId: int, helpful: bool, notHelpful: bool)

  datatype ScoredNote = ScoredNote(noteId: int, score: real, status: Status, numRatings: nat, helpfulRatio: real)

  function NoteRows(ratings: seq<Rating>): (rows: seq<Row>)
    ensures |rows| == |ratings|
  {
    seq(|ratings|, i requires 0 <= i < |ratings| => Row(ratings[i].noteId, ratings[i].helpful))
  }

  function ScoreNote(g: Group): ScoredNote {
    ScoredNote(g.key, Score(g.marked, g.total), StatusOf(Score(g.marked, g.total), g.total), g.total,
               if g.total > 0 then g.marked as real / g.total as real else 0.0)
  }

  /** `notes` scores every rated note once, from all of its ratings, in ascending order. */
  predicate NotesScored(notes: seq<ScoredNote>, ratings: seq<Rating>) {
    && (forall n | n in notes ::
          n == ScoreNote(Group(n.noteId, Marked(NoteRows(ratings), n.noteId), Total(NoteRows(ratings), n.noteId))))
    && (forall i, j | 0 <= i < j < |notes| :: notes[i].noteId < notes[j].noteId)
    && (set n | n in notes :: n.noteId) == set r | r in ratings :: r.noteId
  }

  function RatingsScored(notes: seq<ScoredNote>): nat {
    if notes == [] then 0 else RatingsScored(notes[..|notes| - 1]) + notes[|notes| - 1].numRatings
  }

  /** `calculate_note_scores`. */
  method CalculateNoteScores(ratings: seq<Rating>) returns (notes: seq<ScoredNote>)
    ensures NotesScored(notes, ratings)
    ensures RatingsScored(notes) == |ratings|
  {
    hide Grouped, Keys, NotesScored, NoteRows, Score, StatusOf;
    var groups := GroupRows(NoteRows(ratings));
    notes := [];
    for i := 0 to |groups|
      invariant |notes| == i && forall j | 0 <= j < i :: notes[j] == ScoreNote(groups[j])
      invariant RatingsScored(notes) == Sum(groups[..i])
    {
      var note := ScoreNote(groups[i]);
      assert (notes + [note])[..i] == notes && groups[..i + 1][..i] == groups[..i];
      notes := notes + [note];
    }
    assert groups[..|groups|] == groups;
    NotesFromGroups(ratings, groups, notes);
  }

  lemma NoteKeys(ratings: seq<Rating>)
    ensures Keys(NoteRows(ratings)) == set r | r in ratings :: r.noteId
  {
    var rows, ids := NoteRows(ratings), set r | r in ratings :: r.noteId;
    forall r | r in ratings ensures r.noteId in Keys(rows) {
      var i :| 0 <= i < |ratings| && ratings[i] == r;
      assert rows[i] in rows;
    }
    forall row | row in rows ensures row.key in ids {
      var i :| 0 <= i < |rows| && rows[i] == row;
      assert ratings[i] in ratings;
    }
  }

  lemma NotesFromGroups(ratings: seq<Rating>, groups: seq<Group>, notes: seq<ScoredNote>)
    requires Grouped(groups, NoteRows(ratings), Keys(NoteRows(ratings)))
    requires |notes| == |groups| && forall j | 0 <= j < |groups| :: notes[j] == ScoreNote(groups[j])
    ensures NotesScored(notes, ratings)
  {
    NoteKeys(ratings);
    var ids, keys := set n | n in notes :: n.noteId, set g | g in groups :: g.key;
    forall n | n in notes ensures exists g | g in groups :: n == ScoreNote(g) {
      var j :| 0 <= j < |notes| && notes[j] == n;
      assert groups[j] in groups;
    }
    forall g | g in groups ensures g.key in ids {
      var j :| 0 <= j < |groups| && groups[j] == g;
      assert notes[j] in notes;
    }
    assert ids == keys;
  }

  // ----- Raters -----

  /** The rows a left join gives one rating: one for every note that matches, or one without a status. */
  function Matches(notes: seq<ScoredNote>, noteId: int): seq<Option<Status>> {
    if notes == [] then []
    else (if notes[0].noteId == noteId then [Some(notes[0].status)] else []) + Matches(notes[1..], noteId)
  }

  function JoinOne(r: Rating, notes: seq<ScoredNote>): seq<Option<Status>> {
    if Matches(notes, r.noteId) == [] then [None] else Matches(notes, r.noteId)
  }

  predicate Agrees(r: Rating, status: Option<Status>) {
    (status == Some(Helpful) && r.helpful) || (status == Some(NotHelpful) && r.notHelpful)
  }

  function RowsOf(r: Rating, statuses: seq<Option<Status>>): seq<Row> {
    seq(|statuses|, i requires 0 <= i < |statuses| => Row(r.rater, Agrees(r, statuses[i])))
  }

  /** The joined table, as rows of the rater and whether the rating agrees with the status of its note. */
  function Join(ratings: seq<Rating>, notes: seq<ScoredNote>): seq<Row> {
    if ratings == [] then []
    else Join(ratings[..|ratings| - 1], notes) +
         RowsOf(ratings[|ratings| - 1], JoinOne(ratings[|ratings| - 1], notes))
  }

  datatype ScoredUser = ScoredUser(rater: int, agreementRate: real, numRatings: nat)

  function ScoreUser(g: Group): ScoredUser {
    ScoredUser(g.key, if g.total > 0 then g.marked as real / g.total as real else 0.0, g.total)
  }

  /** `users` scores every rater with a row once, from all of the rater's rows, in ascending order. */
  predicate UsersScored(users: seq<ScoredUser>, rows: seq<Row>) {
    && (forall u | u in users :: u == ScoreUser(Group(u.rater, Marked(rows, u.rater), Total(rows, u.rater))))
    && (forall i, j | 0 <= i < j < |users| :: users[i].rater < users[j].rater)
    && (set u | u in users :: u.rater) == Keys(rows)
  }

  function RatingsOfUsers(users: seq<ScoredUser>): nat {
    if users == [] then 0 else RatingsOfUsers(users[..|users| - 1]) + users[|users| - 1].numRatings
  }

  /** `calculate_user_helpfulness`. */
  method CalculateUserHelpfulness(ratings: seq<Rating>, notes: seq<ScoredNote>) returns (users: seq<ScoredUser>)
    ensures UsersScored(users, Join(ratings, notes))
    ensures RatingsOfUsers(users) == |Join(ratings, notes)|
  {
    hide Join, Grouped, Keys, UsersScored;
    var rows := Join(ratings, notes);
    var groups := GroupRows(rows);
    users := [];
    for i := 0 to |groups|
      invariant |users| == i && forall j | 0 <= j < i :: users[j] == ScoreUser(groups[j])
      invariant RatingsOfUsers(users) == Sum(groups[..i])
    {
      var user := ScoreUser(groups[i]);
      assert (users + [user])[..i] == users && groups[..i + 1][..i] == groups[..i];
      users := users + [user];
    }
    assert groups[..|groups|] == groups;
    UsersFromGroups(rows, groups, users);
  }

  lemma UsersFromGroups(rows: seq<Row>, groups: seq<Group>, users: seq<ScoredUser>)
    requires Grouped(groups, rows, Keys(rows))
    requires |users| == |groups| && forall j | 0 <= j < |groups| :: users[j] == ScoreUser(groups[j])
    ensures UsersScored(users, rows)
  {
    var raters, keys := set u | u in users :: u.rater, set g | g in groups :: g.key;
    forall u | u in users ensures exists g | g in groups :: u == ScoreUser(g) {
      var j :| 0 <= j < |users| && users[j] == u;
      assert groups[j] in groups;
    }
    forall g | g in groups ensures g.key in raters {
      var j :| 0 <= j < |groups| && groups[j] == g;
      assert users[j] in users;
    }
    assert raters == keys;
  }

  lemma {:induction false} NoMatch(notes: seq<ScoredNote>, noteId: int)
    requires forall n | n in notes :: n.noteId != noteId
    ensures Matches(notes, noteId) == []
  {
    if notes != [] {
      assert notes[0] in notes && forall n | n in notes[1..] :: n in notes;
      NoMatch(notes[1..], noteId);
    }
  }

  lemma {:induction false} OneMatch(notes: seq<ScoredNote>, i: nat)
    requires i < |notes|
    requires forall a, b | 0 <= a < b < |notes| :: notes[a].noteId < notes[b].noteId
    ensures Matches(notes, notes[i].noteId) == [Some(notes[i].status)]
  {
    if i == 0 {
      NoMatch(notes[1..], notes[0].noteId);
    } else {
      OneMatch(notes[1..], i - 1);
    }
  }

  /** Joining the ratings with the scores computed from them neither drops nor doubles a rating, and every row
    * compares its rating with the final status of the note it rates. */
  lemma {:induction false} JoinKeepsRatings(ratings: seq<Rating>, notes: seq<ScoredNote>, all: seq<Rating>)
    requires NotesScored(notes, all) && ratings <= all
    ensures |Join(ratings, notes)| == |ratings|
    ensures forall i | 0 <= i < |ratings| ::
              var rows, r := NoteRows(all), ratings[i];
              var helpful, total := Marked(rows, r.noteId), Total(rows, r.noteId);
              Join(ratings, notes)[i] == Row(r.rater, Agrees(r, Some(StatusOf(Score(helpful, total), total))))
    decreases |ratings|
  {
    hide Total, Marked, Score, StatusOf, JoinOne;
    if ratings != [] {
      var n := |ratings| - 1;
      JoinKeepsRatings(ratings[..n], notes, all);
      RatingMatchesItsNote(ratings[n], notes, all);
    }
  }

  lemma RatingMatchesItsNote(r: Rating, notes: seq<ScoredNote>, all: seq<Rating>)
    requires NotesScored(notes, all) && r in all
    ensures var helpful, total := Marked(NoteRows(all), r.noteId), Total(NoteRows(all), r.noteId);
            JoinOne(r, notes) == [Some(StatusOf(Score(helpful, total), total))]
  {
    var rated, ids := set q | q in all :: q.noteId, set n | n in notes :: n.noteId;
    assert rated == ids && r.noteId in rated;
    var note :| note in notes && note.noteId == r.noteId;
    var i :| 0 <= i < |notes| && notes[i] == note;
    OneMatch(notes, i);
  }

  /** A rater's agreement rate is a share, and it is whole exactly when every row of the rater agrees. */
  lemma AgreementRateIsAShare(rows: seq<Row>, key: int)
    requires Total(rows, key) > 0
    ensures 0.0 <= ScoreUser(Group(key, Marked(rows, key), Total(rows, key))).agreementRate <= 1.0
    ensures ScoreUser(Group(key, Marked(rows, key), Total(rows, key))).agreementRate == 1.0 <==>
              forall r | r in rows && r.key == key :: r.marked
  {
    MarkedWithinTotal(rows, key);
    var m, t := Marked(rows, key) as real, Total(rows, key) as real;
    RatioBounds(m, t, 0.0);
    RatioBounds(m, t, 1.0);
  }

  lemma {:induction false} MarkedWithinTotal(rows: seq<Row>, key: int)
    ensures Marked(rows, key) <= Total(rows, key)
    ensures Marked(rows, key) == Total(rows, key) <==> forall r | r in rows && r.key == key :: r.marked
    decreases |rows|
  {
    if rows != [] {
      var front, last := rows[..|rows| - 1], rows[|rows| - 1];
      MarkedWithinTotal(front, key);
      assert forall r :: r in rows <==> r in front || r == last;
    }
  }

  // ----- The scores in terms of the ratings -----

  function Places(rows: seq<Row>, key: int): set<int> {
    set i | 0 <= i < |rows| && rows[i].key == key
  }

  function MarkedPlaces(rows: seq<Row>, key: int): set<int> {
    set i | 0 <= i < |rows| && rows[i].key == key && rows[i].marked
  }

  lemma PlacesStep(rows: seq<Row>, front: seq<Row>, last: Row, key: int)
    requires rows == front + [last]
    ensures Places(rows, key) == if last.key == key then Places(front, key) + {|front|} else Places(front, key)
    ensures |front| !in Places(front, key)
  {
  }

  lemma MarkedPlacesStep(rows: seq<Row>, front: seq<Row>, last: Row, key: int)
    requires rows == front + [last]
    ensures MarkedPlaces(rows, key) ==
            if last.key == key && last.marked then MarkedPlaces(front, key) + {|front|} else MarkedPlaces(front, key)
    ensures |front| !in MarkedPlaces(front, key)
  {
  }

  lemma {:induction false} TotalIsCount(rows: seq<Row>, key: int)
    ensures Total(rows, key) == |Places(rows, key)|
    decreases |rows|
  {
    hide Places;
    if rows == [] {
      NoPlaces(key);
    } else {
      var front, last := rows[..|rows| - 1], rows[|rows| - 1];
      TotalIsCount(front, key);
      PlacesStep(rows, front, last, key);
    }
  }

  lemma {:induction false} MarkedIsCount(rows: seq<Row>, key: int)
    ensures Marked(rows, key) == |MarkedPlaces(rows, key)|
    decreases |rows|
  {
    hide MarkedPlaces;
    if rows == [] {
      NoPlaces(key);
    } else {
      var front, last := rows[..|rows| - 1], rows[|rows| - 1];
      MarkedIsCount(front, key);
      MarkedPlacesStep(rows, front, last, key);
    }
  }

  lemma NoPlaces(key: int)
    ensures Places([], key) == {} && MarkedPlaces([], key) == {}
  {
  }

  /** The number of ratings of a note, and of those that call it helpful. */
  function RatingsOf(ratings: seq<Rating>, noteId: int): nat {
    |set i | 0 <= i < |ratings| && ratings[i].noteId == noteId|
  }

  function HelpfulOf(ratings: seq<Rating>, noteId: int): nat {
    |set i | 0 <= i < |ratings| && ratings[i].noteId == noteId && ratings[i].helpful|
  }

  lemma NoteCounts(ratings: seq<Rating>, noteId: int)
    ensures Total(NoteRows(ratings), noteId) == RatingsOf(ratings, noteId)
    ensures Marked(NoteRows(ratings), noteId) == HelpfulOf(ratings, noteId)
    ensures HelpfulOf(ratings, noteId) <= RatingsOf(ratings, noteId)
  {
    var rows := NoteRows(ratings);
    TotalIsCount(rows, noteId);
    MarkedIsCount(rows, noteId);
    MarkedWithinTotal(rows, noteId);
    assert Places(rows, noteId) == set i | 0 <= i < |ratings| && ratings[i].noteId == noteId;
    assert MarkedPlaces(rows, noteId)
        == set i | 0 <= i < |ratings| && ratings[i].noteId == noteId && ratings[i].helpful;
  }

  /** A scored note in terms of the ratings of that note. */
  lemma ScoredNoteIs(ratings: seq<Rating>, notes: seq<ScoredNote>, n: ScoredNote)
    requires NotesScored(notes, ratings) && n in notes
    ensures var helpful, total := HelpfulOf(ratings, n.noteId), RatingsOf(ratings, n.noteId);
            && total > 0 && n.numRatings == total && n.helpfulRatio == helpful as real / total as real
            && n.score == Min(helpful as real / total as real, helpful as real / 10.0)
            && (n.status == Helpful <==> helpful >= 6 && 5 * helpful >= 3 * total)
            && (n.status == NotHelpful <==> total >= 3 && (helpful <= 3 || 10 * helpful <= 3 * total))
  {
    hide Score, StatusOf, Total, Marked, RatingsOf, HelpfulOf;
    NoteCounts(ratings, n.noteId);
    RatedOnce(ratings, notes, n);
    var helpful, total := HelpfulOf(ratings, n.noteId), RatingsOf(ratings, n.noteId);
    ScoreIsMin(helpful, total);
    HelpfulIff(helpful, total);
    NotHelpfulIff(helpful, total);
  }

  lemma RatedOnce(ratings: seq<Rating>, notes: seq<ScoredNote>, n: ScoredNote)
    requires NotesScored(notes, ratings) && n in notes
    ensures RatingsOf(ratings, n.noteId) > 0
  {
    var scored, rated := set m | m in notes :: m.noteId, set r | r in ratings :: r.noteId;
    assert n.noteId in scored && scored == rated;
    var r :| r in ratings && r.noteId == n.noteId;
    var i :| 0 <= i < |ratings| && ratings[i] == r;
    var ids := set k | 0 <= k < |ratings| && ratings[k].noteId == n.noteId;
    assert i in ids;
  }

  /** The rating agrees with the status that the note ends up with. */
  predicate AgreesWithFinal(r: Rating, ratings: seq<Rating>) {
    var helpful, total := HelpfulOf(ratings, r.noteId), RatingsOf(ratings, r.noteId);
    || (helpful >= 6 && 5 * helpful >= 3 * total && r.helpful)
    || (total >= 3 && (helpful <= 3 || 10 * helpful <= 3 * total) && r.notHelpful)
  }

  lemma JoinedRowIs(ratings: seq<Rating>, notes: seq<ScoredNote>, i: nat)
    requires NotesScored(notes, ratings) && i < |ratings|
    ensures |Join(ratings, notes)| == |ratings|
    ensures Join(ratings, notes)[i] == Row(ratings[i].rater, AgreesWithFinal(ratings[i], ratings))
  {
    hide Join, Score, StatusOf, Total, Marked, RatingsOf, HelpfulOf, NotesScored;
    JoinKeepsRatings(ratings, notes, ratings);
    var id := ratings[i].noteId;
    NoteCounts(ratings, id);
    HelpfulIff(HelpfulOf(ratings, id), RatingsOf(ratings, id));
    NotHelpfulIff(HelpfulOf(ratings, id), RatingsOf(ratings, id));
  }

  /** A scored rater in terms of the ratings given: how many, and the share that agrees with the final status. */
  lemma ScoredUserIs(ratings: seq<Rating>, notes: seq<ScoredNote>, users: seq<ScoredUser>, u: ScoredUser)
    requires NotesScored(notes, ratings) && UsersScored(users, Join(ratings, notes)) && u in users
    ensures var given := set i | 0 <= i < |ratings| && ratings[i].rater == u.rater;
            var agreed := set i | 0 <= i < |ratings| && ratings[i].rater == u.rater
                                  && AgreesWithFinal(ratings[i], ratings);
            u.numRatings == |given| && (|given| > 0 ==> u.agreementRate == |agreed| as real / |given| as real)
  {
    hide Join, AgreesWithFinal, NotesScored, Total, Marked;
    var rows := Join(ratings, notes);
    JoinKeepsRatings(ratings, notes, ratings);
    forall i: nat | i < |ratings| ensures rows[i] == Row(ratings[i].rater, AgreesWithFinal(ratings[i], ratings)) {
      JoinedRowIs(ratings, notes, i);
    }
    TotalIsCount(rows, u.rater);
    MarkedIsCount(rows, u.rater);
    assert Places(rows, u.rater) == set i | 0 <= i < |ratings| && ratings[i].rater == u.rater;
    assert MarkedPlaces(rows, u.rater)
        == set i | 0 <= i < |ratings| && ratings[i].rater == u.rater && AgreesWithFinal(ratings[i], ratings);
  }
}
