/** Saving text without changing a file's line endings, from crates/leave-core/src/guarded_fs.rs.
  Text is the sequence of its bytes, as characters.
 */
module LineEndings {
  import opened Outcomes
  import opened Sequences

  const CR: char := '\r'
  const LF: char := '\n'

  predicate PairAt(text: string, i: nat) {
    i + 1 < |text| && text[i] == CR && text[i + 1] == LF
  }

  predicate UsesCrlf(text: string) {
    exists i :: 0 <= i < |text| && PairAt(text, i)
  }

  /** Replace every CR LF by LF, from left to right. */
  function Collapse(text: string): (lf: string)
    ensures |lf| <= |text|
  {
    if text == "" then ""
    else if PairAt(text, 0) then [LF] + Collapse(text[2..])
    else [text[0]] + Collapse(text[1..])
  }

  /** Replace every LF by CR LF. */
  function Expand(text: string): (crlf: string)
    ensures |crlf| >= |text|
  {
    if text == "" then ""
    else if text[0] == LF then [CR, LF] + Expand(text[1..])
    else [text[0]] + Expand(text[1..])
  }

  function Preserved(existing: Option<string>, content: string): string {
    var lf := Collapse(content);
    if existing.Some? && UsesCrlf(existing.value) then Expand(lf) else lf
  }

  lemma {:induction false} ExpandStarts(text: string)
    ensures text != "" && text[0] != LF ==> Expand(text) != "" && Expand(text)[0] == text[0]
    ensures text != "" && text[0] == LF ==> |Expand(text)| >= 2 && Expand(text)[0] == CR && Expand(text)[1] == LF
  {
  }

  /** Collapsing undoes expanding, for every text. */
  lemma {:induction false} CollapseUndoesExpand(text: string)
    ensures Collapse(Expand(text)) == text
  {
    if text != "" {
      var all, rest := Expand(text), Expand(text[1..]);
      CollapseUndoesExpand(text[1..]);
      assert text == [text[0]] + text[1..];
      if text[0] == LF {
        assert PairAt(all, 0) && all[2..] == rest;
      } else {
        ExpandStarts(text[1..]);
        assert !PairAt(all, 0) && all[1..] == rest;
      }
    }
  }

  /** In a CR LF text every LF follows a CR. */
  lemma {:induction false} ExpandedPairs(text: string, i: nat)
    requires i < |Expand(text)| && Expand(text)[i] == LF
    ensures i > 0 && Expand(text)[i - 1] == CR
    decreases |text|
  {
    if text[0] == LF {
      if i >= 2 {
        ExpandedPairs(text[1..], i - 2);
      }
    } else {
      ExpandedPairs(text[1..], i - 1);
    }
  }

  lemma {:induction false} CollapseKeepsLines(text: string)
    ensures Count(Collapse(text), LF) == Count(text, LF)
    decreases |text|
  {
    if text != "" {
      if PairAt(text, 0) {
        CollapseKeepsLines(text[2..]);
        assert text[1..][1..] == text[2..];
        assert Collapse(text)[1..] == Collapse(text[2..]);
      } else {
        CollapseKeepsLines(text[1..]);
        assert Collapse(text)[1..] == Collapse(text[1..]);
      }
    }
  }

  lemma {:induction false} ExpandKeepsLines(text: string)
    ensures Count(Expand(text), LF) == Count(text, LF)
  {
    if text != "" {
      ExpandKeepsLines(text[1..]);
      var all := Expand(text);
      if text[0] == LF {
        assert all[1..] == [LF] + Expand(text[1..]);
        assert all[1..][1..] == Expand(text[1..]);
      } else {
        assert all[1..] == Expand(text[1..]);
      }
    }
  }

  /** Saving keeps the number of lines, whatever the file. */
  lemma LinesAreKept(existing: Option<string>, content: string)
    ensures Count(Preserved(existing, content), LF) == Count(content, LF)
  {
    CollapseKeepsLines(content);
    ExpandKeepsLines(Collapse(content));
  }

  // ----- files without CR LF

  predicate TripleAt(text: string, i: nat) {
    i + 2 < |text| && text[i] == CR && text[i + 1] == CR && text[i + 2] == LF
  }

  predicate HasTriple(text: string) {
    exists i :: 0 <= i < |text| && TripleAt(text, i)
  }

  lemma PairShifts(text: string, rest: string, k: nat)
    requires k <= |text| && rest == text[k..] && forall i :: 0 <= i < k ==> !PairAt(text, i)
    ensures UsesCrlf(text) <==> UsesCrlf(rest)
  {
    if UsesCrlf(text) {
      var i :| 0 <= i < |text| && PairAt(text, i);
      assert PairAt(rest, i - k);
    }
    if UsesCrlf(rest) {
      var i :| 0 <= i < |rest| && PairAt(rest, i);
      assert PairAt(text, i + k);
    }
  }

  lemma TripleShifts(text: string, rest: string, k: nat)
    requires k <= |text| && rest == text[k..] && forall i :: 0 <= i < k ==> !TripleAt(text, i)
    ensures HasTriple(text) <==> HasTriple(rest)
  {
    if HasTriple(text) {
      var i :| 0 <= i < |text| && TripleAt(text, i);
      assert TripleAt(rest, i - k);
    }
    if HasTriple(rest) {
      var i :| 0 <= i < |rest| && TripleAt(rest, i);
      assert TripleAt(text, i + k);
    }
  }

  /** Collapsing leaves a CR LF behind exactly when there was a CR CR LF. */
  lemma {:induction false} CollapseLeavesPairs(text: string)
    ensures UsesCrlf(Collapse(text)) <==> HasTriple(text)
    ensures Collapse(text) != "" && Collapse(text)[0] == LF <==> text != "" && (text[0] == LF || PairAt(text, 0))
    decreases |text|
  {
    if text != "" {
      var all := Collapse(text);
      if PairAt(text, 0) {
        CollapseLeavesPairs(text[2..]);
        PairShifts(all, Collapse(text[2..]), 1);
        TripleShifts(text, text[2..], 2);
      } else {
        CollapseLeavesPairs(text[1..]);
        if TripleAt(text, 0) {
          assert PairAt(text[1..], 0);
          assert PairAt(all, 0);
        } else {
          assert PairAt(text[1..], 0) ==> text[0] != CR;
          assert !PairAt(all, 0);
          PairShifts(all, Collapse(text[1..]), 1);
          TripleShifts(text, text[1..], 1);
        }
      }
    }
  }

  lemma {:induction false} CollapseWithoutPairs(text: string)
    requires !UsesCrlf(text)
    ensures Collapse(text) == text
  {
    if text != "" {
      PairShifts(text, text[1..], 1);
      CollapseWithoutPairs(text[1..]);
      assert text == [text[0]] + text[1..];
    }
  }

  // ----- saving twice

  predicate FollowsCr(text: string, i: nat) {
    0 < i <= |text| && text[i - 1] == CR
  }

  predicate FollowsTwoCrs(text: string, i: nat) {
    1 < i <= |text| && text[i - 1] == CR && text[i - 2] == CR
  }

  /** Every LF follows a CR. */
  ghost predicate LfsFollowCr(text: string) {
    forall i :: 0 <= i < |text| && text[i] == LF ==> FollowsCr(text, i)
  }

  /** Every LF follows two CRs. */
  ghost predicate LfsFollowTwoCrs(text: string) {
    forall i :: 0 <= i < |text| && text[i] == LF ==> FollowsTwoCrs(text, i)
  }

  lemma ExpandedLfs(text: string)
    ensures LfsFollowCr(Expand(text))
  {
    forall i | 0 <= i < |Expand(text)| && Expand(text)[i] == LF ensures FollowsCr(Expand(text), i) {
      ExpandedPairs(text, i);
    }
  }

  /** A front without LF matters only if it ends with a CR before an LF. */
  lemma LfsShift(text: string, k: nat)
    requires k <= |text| && (forall i :: 0 <= i < k && text[i] == LF ==> FollowsCr(text, i))
    requires k < |text| && text[k] == LF ==> !FollowsCr(text, k)
    ensures LfsFollowCr(text) <==> LfsFollowCr(text[k..])
  {
    var rest := text[k..];
    if LfsFollowCr(text) {
      forall i | 0 <= i < |rest| && rest[i] == LF ensures FollowsCr(rest, i) {
        assert FollowsCr(text, i + k);
      }
    }
    if LfsFollowCr(rest) {
      forall i | 0 <= i < |text| && text[i] == LF ensures FollowsCr(text, i) {
        assert i < k || FollowsCr(rest, i - k);
      }
    }
  }

  lemma TwoCrsShift(text: string, k: nat)
    requires k <= |text| && (forall i :: 0 <= i < k && text[i] == LF ==> FollowsTwoCrs(text, i))
    requires forall i :: k <= i < |text| && i < k + 2 && text[i] == LF ==> !FollowsTwoCrs(text, i)
    ensures LfsFollowTwoCrs(text) <==> LfsFollowTwoCrs(text[k..])
  {
    var rest := text[k..];
    if LfsFollowTwoCrs(text) {
      forall i | 0 <= i < |rest| && rest[i] == LF ensures FollowsTwoCrs(rest, i) {
        assert FollowsTwoCrs(text, i + k);
      }
    }
    if LfsFollowTwoCrs(rest) {
      forall i | 0 <= i < |text| && text[i] == LF ensures FollowsTwoCrs(text, i) {
        assert i < k || FollowsTwoCrs(rest, i - k);
      }
    }
  }

  /** After collapsing, every LF follows a CR exactly when every LF followed two. */
  lemma {:induction false} CollapsedLfs(text: string)
    ensures LfsFollowCr(Collapse(text)) <==> LfsFollowTwoCrs(text)
    decreases |text|
  {
    if text != "" {
      var all := Collapse(text);
      if PairAt(text, 0) || text[0] == LF {
        assert all[0] == LF && !FollowsCr(all, 0);
        var i := if text[0] == LF then 0 else 1;
        assert text[i] == LF && !FollowsTwoCrs(text, i);
      } else if TripleAt(text, 0) {
        assert PairAt(text[1..], 0);
        assert all == [CR, LF] + Collapse(text[3..]);
        CollapsedLfs(text[3..]);
        LfsShift(all, 2);
        TwoCrsShift(text, 3);
      } else {
        CollapsedLfs(text[1..]);
        CollapseLeavesPairs(text[1..]);
        LfsShift(all, 1);
        TwoCrsShift(text, 1);
      }
    }
  }

  lemma FirstIsNoLf(text: string)
    requires LfsFollowCr(text) && text != ""
    ensures text[0] != LF
  {
    assert !FollowsCr(text, 0);
  }

  /** Expanding undoes collapsing where every LF follows a CR. */
  lemma {:induction false} ExpandUndoesCollapse(text: string)
    requires LfsFollowCr(text)
    ensures Expand(Collapse(text)) == text
    decreases |text|
  {
    if text != "" {
      FirstIsNoLf(text);
      if PairAt(text, 0) {
        LfsShift(text, 2);
        ExpandUndoesCollapse(text[2..]);
        assert Collapse(text)[1..] == Collapse(text[2..]);
        assert text == [CR, LF] + text[2..];
      } else {
        LfsShift(text, 1);
        ExpandUndoesCollapse(text[1..]);
        assert Collapse(text)[1..] == Collapse(text[1..]);
        assert text == [text[0]] + text[1..];
      }
    }
  }

  /** A text with CR LF is saved as it is to itself exactly when every LF follows a CR. */
  lemma SavedToItself(text: string)
    ensures Preserved(Some(text), text) == text <==> !UsesCrlf(text) || LfsFollowCr(text)
  {
    if !UsesCrlf(text) {
      CollapseWithoutPairs(text);
    } else if LfsFollowCr(text) {
      ExpandUndoesCollapse(text);
    } else {
      ExpandedLfs(Collapse(text));
    }
  }

  /** What was saved to a CR LF file is saved to that unchanged, and each of its LF follows a CR. */
  lemma CrlfIsStable(existing: string, content: string)
    requires UsesCrlf(existing)
    ensures var saved := Preserved(Some(existing), content);
      Preserved(Some(saved), saved) == saved && LfsFollowCr(saved)
  {
    ExpandedLfs(Collapse(content));
    SavedToItself(Preserved(Some(existing), content));
  }

  /** What was saved to a file without CR LF is saved to that unchanged exactly when the content had
    no CR CR LF, or no LF that does not follow two CRs. */
  lemma LfIsStable(existing: Option<string>, content: string)
    requires existing.Some? ==> !UsesCrlf(existing.value)
    ensures var saved := Preserved(existing, content);
      && (Preserved(Some(saved), saved) == saved <==> !HasTriple(content) || LfsFollowTwoCrs(content))
      && (UsesCrlf(saved) <==> HasTriple(content))
  {
    CollapseLeavesPairs(content);
    CollapsedLfs(content);
    SavedToItself(Collapse(content));
  }

  /** A content that changes when it is saved twice: CR CR LF and an LF of its own. */
  lemma SecondSaveChanges()
    ensures var saved := Preserved(None, [CR, CR, LF, LF]);
      saved == [CR, LF, LF] && Preserved(Some(saved), saved) == [CR, LF, CR, LF]
  {
    var content, saved := [CR, CR, LF, LF], [CR, LF, LF];
    assert content[1..] == saved && saved[2..] == [LF] && [LF][1..] == "";
    assert Collapse([LF]) == [LF];
    assert Collapse(saved) == [LF, LF];
    assert Collapse(content) == [CR] + Collapse(saved) == saved;
    assert PairAt(saved, 0);
    assert [LF, LF][1..] == [LF];
    assert Expand([LF]) == [CR, LF];
  }

  // ----- check and commit

  datatype WriteError = Conflict(currentHash: string)
  datatype Prepared = Prepared(expectedHash: string, normalized: string)

  function TextOf(file: Option<string>): string {
    if file.Some? then file.value else ""
  }

  class GuardedFile {
    var file: Option<string>
    const hash: string -> string

    constructor (file: Option<string>, hash: string -> string)
      ensures this.file == file && this.hash == hash
    {
      this.file, this.hash := file, hash;
    }

    /** The first check: the caller must know what is in the file. */
    method Prepare(baseHash: string, content: string) returns (result: Result<Prepared, WriteError>)
      ensures result.Ok? <==> hash(TextOf(file)) == baseHash
      ensures result.Ok? ==> result.value == Prepared(baseHash, Preserved(file, content))
      ensures result.Err? ==> result.error == Conflict(hash(TextOf(file)))
    {
      var currentHash := hash(TextOf(file));
      if currentHash != baseHash {
        return Err(Conflict(currentHash));
      }
      return Ok(Prepared(currentHash, Preserved(file, content)));
    }

    /** The second check, next to the commit: whatever happened in between, text is only replaced
      if it still has the hash the caller started from. */
    method Commit(p: Prepared) returns (result: Result<(), WriteError>)
      modifies this
      ensures result.Ok? <==> hash(TextOf(old(file))) == p.expectedHash
      ensures file == if result.Ok? then Some(p.normalized) else old(file)
      ensures result.Err? ==> result.error == Conflict(hash(TextOf(old(file))))
    {
      var latestHash := hash(TextOf(file));
      if latestHash != p.expectedHash {
        return Err(Conflict(latestHash));
      }
      file := Some(p.normalized);
      return Ok(());
    }
  }
}
