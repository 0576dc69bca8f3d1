/** The lease object: it opens the lock file and takes its flock, and gives the flock back when it goes. */
module CatalogLocks {
  /** The lock file and the flocks everyone holds on it. */
  class LockFile {
    var present: bool
    var shared: nat
    var exclusive: bool

    ghost predicate Valid()
      reads this
    {
      && (exclusive ==> shared == 0)
      && (exclusive || shared > 0 ==> present)
    }

    /** When a request for the flock returns instead of blocking. */
    predicate Grants(writer: bool)
      reads this
    {
      !exclusive && (writer ==> shared == 0)
    }

    constructor ()
      ensures Valid() && !present && shared == 0 && !exclusive
    {
      present, shared, exclusive := false, 0, false;
    }

    /** Others take and give back flocks, and may create the file; they cannot take ours. */
    method OthersAct(ours: nat)
      requires Valid() && ours <= shared && !exclusive
      modifies this
      ensures Valid() && ours <= shared && (old(present) ==> present)
      ensures ours > 0 ==> !exclusive
    {
      var readers: int, writer: bool := *, *;
      if writer && ours == 0 {
        present, shared, exclusive := true, 0, true;
      } else if present {
        shared := ours + (if readers > 0 then readers else 0);
      }
    }
  }

  class CatalogLock {
    const file: LockFile
    const writer: bool
    var descriptorOpen: bool

    /** Returns once the flock is granted, or opening or locking has failed. */
    constructor (file: LockFile, writer: bool)
      requires file.Valid() && file.Grants(writer)
      modifies file
      ensures this.file == file && this.writer == writer && file.Valid()
      ensures (old(file.present) ==> file.present) && (!writer ==> file.present == old(file.present))
      ensures if descriptorOpen
              then file.present && file.exclusive == writer &&
                   file.shared == old(file.shared) + (if writer then 0 else 1)
              else file.shared == old(file.shared) && file.exclusive == old(file.exclusive)
      ensures !writer && !old(file.present) ==> !descriptorOpen
    {
      this.file := file;
      this.writer := writer;
      descriptorOpen := false;
      new;
      var openable, locked: bool := *, *;
      if writer && openable {
        file.present := true;
      }
      descriptorOpen := openable && file.present;
      if descriptorOpen && !locked {
        descriptorOpen := false;
      }
      if descriptorOpen {
        if writer {
          file.exclusive := true;
        } else {
          file.shared := file.shared + 1;
        }
      }
    }

    /** This lease is among the flocks held. */
    ghost predicate Held()
      reads this, file
    {
      descriptorOpen ==> file.Valid() && (if writer then file.exclusive else file.shared > 0)
    }

    method Close()
      requires file.Valid() && Held()
      modifies this, file
      ensures file.Valid() && file.present == old(file.present) && !descriptorOpen
      ensures if old(descriptorOpen) && writer then !file.exclusive && file.shared == old(file.shared)
              else file.exclusive == old(file.exclusive) &&
                   file.shared == old(file.shared) - (if old(descriptorOpen) then 1 else 0)
    {
      if descriptorOpen {
        if writer {
          file.exclusive := false;
        } else {
          file.shared := file.shared - 1;
        }
        descriptorOpen := false;
      }
    }
  }

  /**
   * An evaluation holds a lease and takes a second one while the store loads. Whatever others do meanwhile, the second
   * is granted at once, no writer gets in before the first is closed, and every flock taken is given back. `taken`
   * and `returned` count what the file's count of shared flocks gains and loses in our own steps.
   */
  method EvaluateUnderLease(file: LockFile)
      returns (leased: bool, ghost nestedGranted: bool, ghost writerAbsent: bool, ghost taken: int,
               ghost returned: int)
    requires file.Valid() && file.Grants(false)
    modifies file
    ensures file.Valid() && (leased ==> file.present)
    ensures leased ==> nestedGranted && writerAbsent
    ensures returned == taken && (if leased then 1 <= taken <= 2 else taken == 0)
  {
    ghost var shared := file.shared;
    var lease := new CatalogLock(file, false);
    leased := lease.descriptorOpen;
    nestedGranted, writerAbsent, taken, returned := false, true, file.shared - shared, 0;
    if leased {
      file.OthersAct(1);
      writerAbsent := writerAbsent && !file.exclusive;
      nestedGranted := file.Grants(false);
      shared := file.shared;
      var nested := new CatalogLock(file, false);
      taken := taken + file.shared - shared;
      var ours: nat := if nested.descriptorOpen then 2 else 1;
      file.OthersAct(ours);
      writerAbsent := writerAbsent && !file.exclusive;
      shared := file.shared;
      nested.Close();
      returned := returned + shared - file.shared;
      file.OthersAct(1);
      writerAbsent := writerAbsent && !file.exclusive;
      shared := file.shared;
      lease.Close();
      returned := returned + shared - file.shared;
    }
  }
}
