/** Deleting one stored question by its id. */
module DeleteMcqs {
  import opened Wrappers
  import opened Http
  import opened PyStr
  import opened Tables

  function DeletedMessage(mcqId: Uuid): string {
    "MCQ with ID " + mcqId + " has been deleted successfully"
  }

  /**
   * `delete_mcq`: 404 when no row has the id; otherwise the first row with
   * that id is removed and every other row stays, in order.
   */
  method DeleteMcq(db: Database, mcqId: Uuid) returns (r: Result<string, HttpError>)
    requires db.Valid()
    modifies db
    ensures db.Valid()
    ensures db.users == old(db.users) && db.requests == old(db.requests) && db.videos == old(db.videos)
    ensures var i := FirstIndex(old(db.mcqs), McqId, mcqId);
      if i == |old(db.mcqs)| then
        r == Err(HttpError(NotFound, "MCQ not found")) && db.mcqs == old(db.mcqs)
      else
        r == Ok(DeletedMessage(mcqId)) && db.mcqs == RemoveAt(old(db.mcqs), i)
  {
    var i := FirstIndex(db.mcqs, McqId, mcqId);
    if i == |db.mcqs| {
      return Err(HttpError(NotFound, "MCQ not found"));
    }
    RemoveUnique(db.mcqs, McqId, i);
    db.mcqs := RemoveAt(db.mcqs, i);
    r := Ok(DeletedMessage(mcqId));
  }

  /**
   * With ids unique, a deletion keeps exactly the rows whose id differs, one
   * fewer than before, and the id was present exactly when the call succeeds.
   */
  lemma DeleteRemovesExactly(mcqs: seq<Mcq>, mcqId: Uuid)
    requires UniqueBy(mcqs, McqId)
    ensures var i := FirstIndex(mcqs, McqId, mcqId);
      && (i < |mcqs| <==> exists m :: m in mcqs && m.id == mcqId)
      && (i < |mcqs| ==>
           && |RemoveAt(mcqs, i)| == |mcqs| - 1
           && forall m :: m in RemoveAt(mcqs, i) <==> m in mcqs && m.id != mcqId)
  {
    var i := FirstIndex(mcqs, McqId, mcqId);
    if i < |mcqs| {
      RemoveUnique(mcqs, McqId, i);
      assert mcqs[i] in mcqs;
    } else {
      forall m | m in mcqs ensures m.id != mcqId {
        var j :| 0 <= j < |mcqs| && mcqs[j] == m;
      }
    }
  }

  /** The confirmation names the deleted id. */
  lemma MessageNamesId(mcqId: Uuid)
    ensures IsInfix(mcqId, DeletedMessage(mcqId))
  {
    InfixOfConcat("MCQ with ID ", mcqId, " has been deleted successfully");
  }
}
