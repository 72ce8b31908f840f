/**
  A device for carrying facts along shut.

  A fact written `forall k: nat {:trigger Key(k)} :: Open(k) ==> P` comes into play only where Key is
  mentioned, that is, after `assert Key(0) && Open(0);`: proofs that merely hand it on are not slowed down
  by what P says.  A predicate whose body is written `true == (...)` is held together in the same way where
  it is to be proved: as one fact, not as one obligation for each of its conjuncts.
 */
module Locks {
  predicate Open(k: nat) {
    true
  }

  predicate Key(k: nat) {
    true
  }
}
