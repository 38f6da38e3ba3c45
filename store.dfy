/** The SQLite database petdating.db, shared by the matchmaking bot and the admin bot:
    the tables the core reads and writes, each as a sequence of rows in table order. */
module Store {
  import opened Types

  class Database {
    /** UserProfiles. */
    var profiles: seq<Profile>
    /** Likes: the relationship ledger. */
    var likes: seq<LikeRow>
    /** Reports. */
    var reports: seq<Report>
    /** Admins.AdminUserId, a TEXT column. */
    var adminRows: seq<string>

    constructor (profiles: seq<Profile>, likes: seq<LikeRow>, reports: seq<Report>, adminRows: seq<string>)
      ensures this.profiles == profiles && this.likes == likes
      ensures this.reports == reports && this.adminRows == adminRows
    {
      this.profiles := profiles;
      this.likes := likes;
      this.reports := reports;
      this.adminRows := adminRows;
    }
  }
}
