/** Administration levels, and what a session may do. */
module Rights {
  import opened Text

  const NORMAL := 0
  const DOMAIN_ADMIN := 1
  const SERVER_ADMIN := 2

  predicate IsLevel(level: int) {
    NORMAL <= level <= SERVER_ADMIN
  }

  /** The administration level a session is logged on with, if it is logged on. */
  datatype Session = Session(level: Option<int>) {
    predicate IsServerAdmin() {
      level == Some(SERVER_ADMIN)
    }

    predicate IsDomainAdmin() {
      IsServerAdmin() || level == Some(DOMAIN_ADMIN)
    }
  }
}
