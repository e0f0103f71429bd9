/** The folder that the labels of a Gmail export name (mbox/gmail.rs). */
module GmailLabels {
  import opened Words
  import opened Splitting

  type Label = string

  /** The lists of labels for a state and for a general place, and how white space is trimmed. */
  datatype Known = Known(status: set<Label>, generic: set<Label>, trim: string -> string)

  function NotBlank(known: Known, parts: seq<string>): seq<Label> {
    if parts == [] then [] else
      (if known.trim(parts[0]) == "" then [] else [known.trim(parts[0])]) + NotBlank(known, parts[1..])
  }

  function Labels(known: Known, raw: string): seq<Label> {
    NotBlank(known, Split(raw, ','))
  }

  function NoStatus(known: Known, labels: seq<Label>): seq<Label> {
    if labels == [] then [] else
      (if labels[0] in known.status then [] else [labels[0]]) + NoStatus(known, labels[1..])
  }

  function FindSpecial(known: Known, labels: seq<Label>): Option<Label> {
    if labels == [] then None
    else if labels[0] !in known.generic then Some(labels[0])
    else FindSpecial(known, labels[1..])
  }

  function DetermineFolder(known: Known, raw: string): string {
    var all := Labels(known, raw);
    if all == [] then "Unknown" else
      var filtered := NoStatus(known, all);
      if |filtered| == 0 then all[0]
      else if |filtered| == 1 then filtered[0]
      else match FindSpecial(known, filtered)
        case Some(tag) => tag
        case None => filtered[0]
  }

  // ---------------------------------------------------------------- the first of the best

  /** Labels of one's own before general places, and these before states. */
  function Rank(known: Known, tag: Label): nat {
    if tag in known.status then 2 else if tag in known.generic then 1 else 0
  }

  predicate FirstBest(known: Known, labels: seq<Label>, i: nat) {
    && i < |labels|
    && (forall j :: 0 <= j < |labels| ==> Rank(known, labels[i]) <= Rank(known, labels[j]))
    && (forall j :: 0 <= j < i ==> Rank(known, labels[i]) < Rank(known, labels[j]))
  }

  lemma OneFirstBest(known: Known, labels: seq<Label>, i: nat, j: nat)
    requires FirstBest(known, labels, i) && FirstBest(known, labels, j)
    ensures i == j
  {
    var a, b := Rank(known, labels[i]), Rank(known, labels[j]);
    assert a <= b && b <= a;
  }

  /** A label is listed when it is a part between commas, trimmed and not blank. */
  lemma {:induction false} LabelsAre(known: Known, parts: seq<string>, tag: Label)
    ensures tag in NotBlank(known, parts) <==>
      tag != "" && exists i :: 0 <= i < |parts| && known.trim(parts[i]) == tag
  {
    if parts != [] {
      LabelsAre(known, parts[1..], tag);
      assert forall i :: 0 <= i < |parts| - 1 ==> parts[1..][i] == parts[i + 1];
    }
  }

  lemma {:induction false} NoStatusFirst(known: Known, labels: seq<Label>)
    ensures var f := NoStatus(known, labels);
      && (f == [] <==> forall j :: 0 <= j < |labels| ==> labels[j] in known.status)
      && (f != [] ==> exists i: nat :: First(known, labels, i) && labels[i] == f[0])
  {
    if labels != [] {
      NoStatusFirst(known, labels[1..]);
      if labels[0] in known.status {
        assert [] + NoStatus(known, labels[1..]) == NoStatus(known, labels[1..]);
        if NoStatus(known, labels) != [] {
          var i: nat :| First(known, labels[1..], i) && labels[1..][i] == NoStatus(known, labels)[0];
          assert forall j :: 0 < j <= i ==> labels[j] == labels[1..][j - 1];
          assert First(known, labels, i + 1);
        }
      } else {
        assert First(known, labels, 0);
      }
    }
  }

  /** The first label that is no state. */
  predicate First(known: Known, labels: seq<Label>, i: nat) {
    i < |labels| && labels[i] !in known.status && forall j :: 0 <= j < i ==> labels[j] in known.status
  }

  /** The first label that is neither. */
  predicate FirstSpecial(known: Known, labels: seq<Label>, i: nat) {
    i < |labels| && Rank(known, labels[i]) == 0 && forall j :: 0 <= j < i ==> Rank(known, labels[j]) > 0
  }

  lemma {:induction false} SpecialFirst(known: Known, labels: seq<Label>)
    ensures match FindSpecial(known, NoStatus(known, labels))
      case Some(tag) => exists i: nat :: FirstSpecial(known, labels, i) && labels[i] == tag
      case None => forall j :: 0 <= j < |labels| ==> Rank(known, labels[j]) > 0
  {
    if labels != [] {
      var rest := NoStatus(known, labels[1..]);
      SpecialFirst(known, labels[1..]);
      if labels[0] in known.status {
        assert [] + rest == rest;
      } else {
        assert ([labels[0]] + rest)[1..] == rest;
      }
      if Rank(known, labels[0]) == 0 {
        assert FirstSpecial(known, labels, 0);
      } else {
        match FindSpecial(known, rest) {
          case Some(tag) =>
            var i: nat :| FirstSpecial(known, labels[1..], i) && labels[1..][i] == tag;
            assert forall j :: 0 < j <= i ==> labels[j] == labels[1..][j - 1];
            assert FirstSpecial(known, labels, i + 1);
          case None =>
        }
      }
    }
  }

  /** The folder is the first of the best labels, and `Unknown` when there is none. */
  lemma FolderIsFirstBest(known: Known, raw: string)
    ensures var all, folder := Labels(known, raw), DetermineFolder(known, raw);
      if all == [] then folder == "Unknown" else exists i: nat :: FirstBest(known, all, i) && all[i] == folder
  {
    hide Labels;
    var all := Labels(known, raw);
    var filtered := NoStatus(known, all);
    NoStatusFirst(known, all);
    SpecialFirst(known, all);
    if all != [] {
      if filtered == [] {
        assert FirstBest(known, all, 0);
      } else {
        var n: nat :| First(known, all, n) && all[n] == filtered[0];
        match FindSpecial(known, filtered) {
          case Some(tag) =>
            var i: nat :| FirstSpecial(known, all, i) && all[i] == tag;
            assert FirstBest(known, all, i);
          case None =>
            assert FirstBest(known, all, n);
        }
      }
    }
  }
}
