/** services/activity.service.js: a best-effort append to the activity log. */
module ActivityService {
  import opened Wrappers
  import opened Store

  /**
   * `logActivity(type, message, userId = null)`. `writeSucceeds` is whether
   * the database accepted the row; a failed write is swallowed, so the
   * caller sees no difference. Only the log can change, and only at its end.
   */
  method LogActivity(db: Db, kind: ActivityType, message: string, userId: Option<nat> := None, writeSucceeds: bool := true)
    modifies db`activities
    ensures db.activities == old(db.activities) + (if writeSucceeds then [Activity(kind, message, userId)] else [])
  {
    if writeSucceeds {
      db.activities := db.activities + [Activity(kind, message, userId)];
    }
  }

}
