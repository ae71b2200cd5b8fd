/** Category labels as both pages keep them: the distinct categories of
    the fetched rows (`Array.from(new Set(rows.map(r => r.category)))`),
    and the admin page's add-if-absent and remove-all-occurrences edits. */
module Categories {
  import opened Seqs
  import Strings

  /** `labels` lists each label in the order of its first occurrence in
      `source`: every two positions are strictly ordered by where their
      labels first appear. Strictness also rules out duplicates. */
  predicate InFirstOccurrenceOrder(labels: seq<string>, source: seq<string>) {
    forall i, j | 0 <= i < j < |labels| :: FirstIndex(source, labels[i]) < FirstIndex(source, labels[j])
  }

  /** Inserting `source` into a JavaScript `Set` one element at a time and
      reading the set back: an element already present is skipped, a new
      one goes to the end. */
  function Distinct(source: seq<string>): (labels: seq<string>)
    ensures forall x :: x in labels <==> x in source
    ensures InFirstOccurrenceOrder(labels, source)
    ensures NoDuplicates(labels)
    decreases |source|
  {
    if |source| == 0 then []
    else
      var front := source[..|source| - 1];
      var last := source[|source| - 1];
      var seen := Distinct(front);
      assert source == front + [last];
      FirstIndexOfExtension(front, last);
      if last in seen then seen else seen + [last]
  }

  /** Appending to a sequence moves no first occurrence, and a new
      element's first occurrence is its position at the end. */
  lemma FirstIndexOfExtension(front: seq<string>, last: string)
    ensures forall x | x in front :: FirstIndex(front + [last], x) == FirstIndex(front, x)
    ensures last !in front ==> FirstIndex(front + [last], last) == |front|
  {
    forall x | x in front
      ensures FirstIndex(front + [last], x) == FirstIndex(front, x)
    {
      var k := FirstIndex(front, x);
      var k' := FirstIndex(front + [last], x);
      assert (front + [last])[k] == x;
      assert (front + [last])[..k'] == front[..k'] || k' > |front|;
    }
  }

  /** The two properties pin the list down: any list with exactly the
      labels of `source`, in first-occurrence order, is `Distinct(source)`. */
  lemma {:induction false} FirstOccurrenceListIsUnique(a: seq<string>, b: seq<string>, source: seq<string>)
    requires forall x :: x in a <==> x in b
    requires forall x :: x in a ==> x in source
    requires InFirstOccurrenceOrder(a, source)
    requires InFirstOccurrenceOrder(b, source)
    ensures a == b
    decreases |a|
  {
    if |a| > 0 {
      assert a[0] in b;
    }
    if |b| > 0 {
      assert b[0] in a;
    }
    if |a| > 0 {
      HeadIsEarliest(a, source, b[0]);
      HeadIsEarliest(b, source, a[0]);
      assert a[0] == source[FirstIndex(source, a[0])];
      assert b[0] == source[FirstIndex(source, b[0])];
      TailMembers(a, b, source);
      TailMembers(b, a, source);
      FirstOccurrenceListIsUnique(a[1..], b[1..], source);
      assert a == [a[0]] + a[1..] && b == [b[0]] + b[1..];
    }
  }

  /** No label of a first-occurrence list appears earlier than its head. */
  lemma HeadIsEarliest(a: seq<string>, source: seq<string>, x: string)
    requires |a| > 0 && x in a
    requires InFirstOccurrenceOrder(a, source)
    ensures FirstIndex(source, a[0]) <= FirstIndex(source, x)
  {
    var k := FirstIndex(a, x);
    if k > 0 {
      assert FirstIndex(source, a[0]) < FirstIndex(source, a[k]);
    }
  }

  /** Two first-occurrence lists with the same labels and the same head
      share the labels of their tails. */
  lemma TailMembers(a: seq<string>, b: seq<string>, source: seq<string>)
    requires |a| > 0 && |b| > 0 && a[0] == b[0]
    requires forall x :: x in a <==> x in b
    requires InFirstOccurrenceOrder(a, source)
    ensures forall x | x in a[1..] :: x in b[1..]
  {
    forall x | x in a[1..]
      ensures x in b[1..]
    {
      var k := FirstIndex(a[1..], x) + 1;
      assert a[k] == x;
      assert FirstIndex(source, a[0]) < FirstIndex(source, a[k]);
      assert x in b && x != b[0];
      assert b == [b[0]] + b[1..];
    }
  }

  /** Hence `Distinct` is characterised by its contract alone. */
  lemma DistinctIsTheFirstOccurrenceList(labels: seq<string>, source: seq<string>)
    requires forall x :: x in labels <==> x in source
    requires InFirstOccurrenceOrder(labels, source)
    ensures labels == Distinct(source)
  {
    FirstOccurrenceListIsUnique(labels, Distinct(source), source);
  }

  /** `handleAddCategory`'s list edit: the trimmed label is appended when it
      is non-empty and not yet listed; otherwise nothing changes. */
  function AddLabel(labels: seq<string>, typed: string): (r: seq<string>)
    ensures |r| == |labels| || |r| == |labels| + 1
    ensures r[..|labels|] == labels
    ensures |r| == |labels| + 1 <==> Strings.Trim(typed) != [] && Strings.Trim(typed) !in labels
    ensures |r| == |labels| + 1 ==> r[|labels|] == Strings.Trim(typed)
    ensures Strings.Trim(typed) != [] ==> Strings.Trim(typed) in r
    ensures NoDuplicates(labels) ==> NoDuplicates(r)
  {
    var t := Strings.Trim(typed);
    if t != [] && t !in labels then labels + [t] else labels
  }

  /** `handleRemoveCategory`: every occurrence of `target` goes, the others
      stay with their multiplicity and relative order. */
  function RemoveLabel(labels: seq<string>, target: string): (r: seq<string>)
    ensures target !in r
    ensures forall x | x != target :: multiset(r)[x] == multiset(labels)[x]
    ensures IsSubsequence(r, labels)
  {
    FilterContents(labels, x => x != target);
    Filter(labels, x => x != target)
  }

  /** Removing a label that was just added restores the list. */
  lemma {:induction false} RemoveUndoesAdd(labels: seq<string>, typed: string)
    requires Strings.Trim(typed) !in labels
    ensures RemoveLabel(AddLabel(labels, typed), Strings.Trim(typed)) == labels
  {
    var t := Strings.Trim(typed);
    RemoveAbsent(labels, t);
    FilterAppend(labels, [t], x => x != t);
  }

  /** Removing an absent label changes nothing. */
  lemma {:induction false} RemoveAbsent(labels: seq<string>, target: string)
    requires target !in labels
    ensures RemoveLabel(labels, target) == labels
    decreases |labels|
  {
    if |labels| > 0 {
      RemoveAbsent(labels[1..], target);
      assert labels == [labels[0]] + labels[1..];
    }
  }

  /** Removing twice is removing once. */
  lemma RemoveIdempotent(labels: seq<string>, target: string)
    ensures RemoveLabel(RemoveLabel(labels, target), target) == RemoveLabel(labels, target)
  {
    RemoveAbsent(RemoveLabel(labels, target), target);
  }
}
