/** What one analysis produces: for each role, the top three candidates with
    their rank, their name and the reason they were selected; or nothing
    when the source is missing. */
module Reporting {
  import opened Scoring
  import opened Ranking

  /** One line pair of the output: "<rank>. <name>" and "BASIS: <basis>". */
  datatype Entry = Entry(rank: nat, name: string, basis: string)

  /** The entries listed under one role's heading. */
  datatype Shortlist = Shortlist(role: Role, entries: seq<Entry>)

  /** The outcome of one analysis:
      - Skipped: the input file is missing, nothing is ranked;
      - Raised: the table has no row to scale, the scaler raises and the
        exception ends the whole run;
      - NanScores: every Usability cell is missing, so the scores that read
        Usability are NaN; the one that does not, Senior Developer, is still
        ranked and listed;
      - Ranked: one short list per role, in the order of Roles. */
  datatype Report = Skipped | Raised | NanScores(senior: Shortlist) | Ranked(shortlists: seq<Shortlist>)

  /** How many candidates are listed per role (head(3)). */
  const TopCount: nat := 3

  /** The short list of one role: the TopCount best rows of its score column,
      each with its 1-based rank, its name and its reason. */
  function ShortlistFor(role: Role, scores: seq<real>, names: seq<string>, basis: (Role, nat) -> string): Shortlist
    requires |scores| == |names|
  {
    var top := TopK(scores, TopCount);
    Shortlist(role, seq(|top|, j requires 0 <= j < |top| => Entry(j + 1, names[top[j]], basis(role, top[j]))))
  }

  /** The entries of a short list are the rows picked, in order, ranked from
      1, each with the name and the reason of its row. */
  predicate ListsRows(list: Shortlist, role: Role, names: seq<string>, basis: (Role, nat) -> string, picked: seq<nat>) {
    && list.role == role
    && |list.entries| == |picked|
    && (forall j :: 0 <= j < |picked| ==>
          (picked[j] < |names| && list.entries[j] == Entry(j + 1, names[picked[j]], basis(role, picked[j]))))
  }

  /** A short list lists a top selection of its role's scores: at most three
      rows (fewer only when the table is smaller), distinct, best first, and
      no row left out scores above a row listed. */
  lemma ShortlistIsTopSelection(role: Role, scores: seq<real>, names: seq<string>, basis: (Role, nat) -> string)
    requires |scores| == |names|
    ensures exists picked ::
      (IsTopSelection(scores, picked, TopCount)
       && ListsRows(ShortlistFor(role, scores, names, basis), role, names, basis, picked))
  {
    var top := TopK(scores, TopCount);
    TopKIsTopSelection(scores, TopCount);
    assert ListsRows(ShortlistFor(role, scores, names, basis), role, names, basis, top);
  }

  /** One score column per role, in the order of Roles, each with a cell for
      each candidate. */
  predicate ScoresFit(scores: seq<seq<real>>, names: seq<string>) {
    |scores| == |Roles| && forall r :: 0 <= r < |Roles| ==> |scores[r]| == |names|
  }

  /** One short list per role, in the order of Roles. */
  function Shortlists(scores: seq<seq<real>>, names: seq<string>, basis: (Role, nat) -> string): (lists: seq<Shortlist>)
    requires ScoresFit(scores, names)
    ensures |lists| == |Roles|
    ensures forall r :: 0 <= r < |Roles| ==> lists[r].role == Roles[r]
  {
    seq(|Roles|, r requires 0 <= r < |Roles| => ShortlistFor(Roles[r], scores[r], names, basis))
  }

  /** The output loops: for each role in turn, for each of its top rows in
      turn, one entry with its rank, name and reason. */
  method EmitShortlists(scores: seq<seq<real>>, names: seq<string>, basis: (Role, nat) -> string)
    returns (lists: seq<Shortlist>)
    requires ScoresFit(scores, names)
    ensures lists == Shortlists(scores, names, basis)
  {
    lists := [];
    var r := 0;
    while r < |Roles|
      invariant 0 <= r <= |Roles|
      invariant lists == Shortlists(scores, names, basis)[..r]
    {
      var role := Roles[r];
      assert |scores[r]| == |names|;
      var top := TopK(scores[r], TopCount);
      var entries: seq<Entry> := [];
      var j := 0;
      while j < |top|
        invariant 0 <= j <= |top|
        invariant entries == ShortlistFor(role, scores[r], names, basis).entries[..j]
      {
        assert ShortlistFor(role, scores[r], names, basis).entries[j] == Entry(j + 1, names[top[j]], basis(role, top[j]));
        entries := entries + [Entry(j + 1, names[top[j]], basis(role, top[j]))];
        j := j + 1;
      }
      assert entries == ShortlistFor(role, scores[r], names, basis).entries;
      lists := lists + [Shortlist(role, entries)];
      r := r + 1;
    }
  }
}
