/** src/fs/file-handle.ts: a descriptor with its own cursor over a shared inode. */
module FileHandle {
  import opened Sequences
  import opened ChunkRows
  import opened ChunkTransfer
  import opened InodeTables
  import opened HardLinks
  import InodeNames
  import opened SqlHandles
  import opened Utf16
  import opened Utf8Order

  /** The caller's buffer has the part asked for: `length` bytes from `offset`, or all from there if no length is given. */
  ghost predicate HasPart(body: Bytes, offset: Option<int>, length: Option<int>) {
    var from := if offset.Some? then offset.value else 0;
    && IsPosition(from) && from <= |body|
    && (length.Some? ==> IsPosition(length.value) && from + length.value <= |body|)
  }

  ghost function Part(body: Bytes, offset: Option<int>, length: Option<int>): Bytes
    requires HasPart(body, offset, length)
  {
    var rest := body[if offset.Some? then offset.value else 0..];
    if length.Some? then rest[..length.value] else rest
  }

  method PartToWrite(body: Bytes, offset: Option<int>, length: Option<int>) returns (r: Outcome<Bytes>)
    ensures HasPart(body, offset, length) ==> r == Ok(Part(body, offset, length))
    ensures !HasPart(body, offset, length) ==> r == Err(EINVAL)
  {
    var start := if offset.Some? then offset.value else 0;
    if !IsPosition(start) || (length.Some? && !IsPosition(length.value)) { return Err(EINVAL); }
    var count := if length.Some? then length.value else |body| - start;
    if start > |body| || start + count > |body| { return Err(EINVAL); }
    assert body[start..start + count] == Part(body, offset, length);
    return Ok(body[start..start + count]);
  }

  /**
   * What a write of `data` through a handle does to the body and the cursor: it goes to the end for an append handle, else
   * to the given position or to the cursor. The cursor moves to where the write ended, and only when no position was given.
   */
  ghost predicate PutBy(was: Bytes, data: Bytes, at: Option<int>, cursor: nat, append: bool, maximum: nat, r: Outcome<nat>,
                      now: Bytes, moved: nat) {
    var from := if at.Some? then at.value else cursor;
    var end := if append then |was| + |data| else Max(0, from + |data|);
    && Wrote(was, data, from, append, maximum, if r.Err? then Err(r.error) else Ok(end), now)
    && (r.Ok? ==> r.value == |data|)
    && moved == if r.Ok? && at.None? then end else cursor
  }

  lemma EncodesSomething(text: Text)
    ensures text != [] ==> Utf8(text) != []
  {}

  /** Calls on one handle run one after another, in the order they were made. */
  class FsFileHandle {
    const owner: SqlFileHandles
    const ino: nat
    const fd: nat
    const readable: bool
    const writable: bool
    const append: bool
    var cursor: nat
    var closed: bool

    /** While the handle is open its inode is pinned, so it can always be found. */
    ghost predicate Valid()
      reads this, owner, owner.tables
    {
      owner.Inv() && (!closed ==> ino in owner.pins)
    }

    constructor (owner: SqlFileHandles, opening: Opening)
      requires owner.Inv() && opening.ino in owner.pins
      ensures Valid() && this.owner == owner && ino == opening.ino && cursor == 0 && !closed
      ensures readable == opening.readable && writable == opening.writable && append == opening.append
    {
      this.owner, ino, fd := owner, opening.ino, opening.fd;
      readable, writable, append := opening.readable, opening.writable, opening.append;
      cursor, closed := 0, false;
    }

    /** A pinned inode is where it says it is. */
    lemma Resolves()
      requires Valid() && !closed
      ensures ino in owner.inodes && Target(owner.tables.db, owner.inodes, ino) == ino && WellFormed(owner.inodes)
    {}

    /**
     * Reads into part of the caller's buffer, at a position or at the cursor. The cursor moves past what
     * was read, and only when no position was given.
     */
    method Read(buffer: array<Byte>, offset: int, length: int, at: Option<int>) returns (r: Outcome<nat>)
      requires Valid()
      modifies this`cursor, buffer
      ensures r.Ok? <==> !closed && readable && IsPosition(offset) && IsPosition(length)
                         && offset + length <= buffer.Length && (at.Some? ==> IsPosition(at.value))
      ensures r.Err? ==> r.error == (if closed || !readable then EBADF else EINVAL)
      ensures r.Err? ==> cursor == old(cursor) && buffer[..] == old(buffer[..])
      ensures r.Ok? ==>
                var data := Ranged(owner.Body(ino), if at.Some? then at.value else old(cursor), length);
                && r.value == |data| && Copied(old(buffer[..]), buffer[..], data, offset)
                && cursor == if at.Some? then old(cursor) else old(cursor) + |data|
    {
      if closed { return Err(EBADF); }
      if !readable { return Err(EBADF); }
      if !IsPosition(offset) || !IsPosition(length) { return Err(EINVAL); }
      if offset + length > buffer.Length { return Err(EINVAL); }
      if at.Some? && !IsPosition(at.value) { return Err(EINVAL); }
      Resolves();
      hide Sound, Ranged;
      var data := owner.Read(ino, if at.Some? then at.value else cursor, length);
      RangedLength(owner.Body(ino), if at.Some? then at.value else cursor, length);
      SetAt(buffer, data.value, offset);
      if at.None? { cursor := cursor + |data.value|; }
      return Ok(|data.value|);
    }

    /** Reads everything from the cursor to the end. */
    method ReadFile() returns (r: Outcome<Bytes>)
      requires Valid()
      modifies this`cursor
      ensures r.Ok? <==> !closed && readable
      ensures r.Err? ==> r.error == EBADF && cursor == old(cursor)
      ensures r.Ok? ==>
                var flat := owner.Body(ino);
                && r.value == flat[Min(old(cursor), |flat|)..] && cursor == old(cursor) + |r.value|
    {
      if closed { return Err(EBADF); }
      if !readable { return Err(EBADF); }
      Resolves();
      hide Sound;
      r := owner.ReadRemaining(ino, cursor);
      cursor := cursor + |r.value|;
    }

    /** Writes part of the caller's buffer. */
    method Write(body: Bytes, offset: Option<int>, length: Option<int>, at: Option<int>) returns (r: Outcome<nat>)
      requires Valid()
      modifies this`cursor, owner`inodes, owner.tables
      ensures Valid()
      ensures closed || !writable ==> r == Err(EBADF)
      ensures !closed && writable && (!HasPart(body, offset, length) || (at.Some? && !IsPosition(at.value))) ==> r == Err(EINVAL)
      ensures !closed && writable && HasPart(body, offset, length) && (at.Some? ==> IsPosition(at.value)) ==>
                var data := Part(body, offset, length);
                && PutBy(old(owner.Body(ino)), data, at, old(cursor), append, owner.maximum, r, owner.Body(ino), cursor)
                && owner.OnlyBody(ino, owner.Body(ino))
                && (r.Ok? && append && data != [] ==> owner.Body(ino) == old(owner.Body(ino)) + data)
      ensures r.Err? ==> cursor == old(cursor) && owner.inodes == old(owner.inodes) && owner.tables.db == old(owner.tables.db)
    {
      hide Sound, PutBy, BodyChanged, Flat, HasPart, Part;
      if closed { return Err(EBADF); }
      if !writable { return Err(EBADF); }
      var data := PartToWrite(body, offset, length);
      if data.Err? { return Err(data.error); }
      if at.Some? && !IsPosition(at.value) { return Err(EINVAL); }
      r := WriteData(data.value, at);
    }

    /** The write itself, once its arguments are checked. */
    method WriteData(data: Bytes, at: Option<int>) returns (r: Outcome<nat>)
      requires Valid() && !closed && writable && (at.Some? ==> IsPosition(at.value))
      modifies this`cursor, owner`inodes, owner.tables
      ensures Valid() && owner.OnlyBody(ino, owner.Body(ino))
      ensures PutBy(old(owner.Body(ino)), data, at, old(cursor), append, owner.maximum, r, owner.Body(ino), cursor)
      ensures r.Ok? && append && data != [] ==> owner.Body(ino) == old(owner.Body(ino)) + data
      ensures r.Err? ==> cursor == old(cursor) && owner.inodes == old(owner.inodes) && owner.tables.db == old(owner.tables.db)
    {
      hide Sound, BodyChanged, Flat;
      Resolves();
      var end := owner.Write(ino, data, Some(if at.Some? then at.value else cursor), append);
      if end.Err? { return Err(end.error); }
      if at.None? { cursor := end.value; }
      return Ok(|data|);
    }

    /** Writes a string as UTF-8, at a position or at the cursor; no other encoding is supported. */
    method WriteText(text: Text, at: Option<int>, utf8: bool) returns (r: Outcome<nat>)
      requires Valid()
      modifies this`cursor, owner`inodes, owner.tables
      ensures Valid()
      ensures closed || !writable ==> r == Err(EBADF)
      ensures !closed && writable && !utf8 ==> r == Err(ENOTSUP)
      ensures !closed && writable && utf8 && at.Some? && !IsPosition(at.value) ==> r == Err(EINVAL)
      ensures !closed && writable && utf8 && (at.Some? ==> IsPosition(at.value)) ==>
                && PutBy(old(owner.Body(ino)), Utf8(text), at, old(cursor), append, owner.maximum, r, owner.Body(ino), cursor)
                && owner.OnlyBody(ino, owner.Body(ino))
                && (r.Ok? && append && text != [] ==> owner.Body(ino) == old(owner.Body(ino)) + Utf8(text))
      ensures r.Err? ==> cursor == old(cursor) && owner.inodes == old(owner.inodes) && owner.tables.db == old(owner.tables.db)
    {
      hide Sound, PutBy, BodyChanged, Flat, Utf8;
      if closed { return Err(EBADF); }
      if !writable { return Err(EBADF); }
      if !utf8 { return Err(ENOTSUP); }
      if at.Some? && !IsPosition(at.value) { return Err(EINVAL); }
      EncodesSomething(text);
      r := WriteData(Utf8(text), at);
    }

    method Truncate(size: int) returns (r: Outcome<()>)
      requires Valid()
      modifies owner`inodes, owner.tables
      ensures Valid()
      ensures r == if closed || !writable then Err(EBADF) else if !IsPosition(size) then Err(EINVAL)
                   else if size > owner.maximum then Err(EFBIG) else Ok(())
      ensures r.Ok? ==> owner.OnlyBody(ino, Sized(old(owner.Body(ino)), size))
      ensures r.Err? ==> owner.inodes == old(owner.inodes) && owner.tables.db == old(owner.tables.db)
    {
      if closed { return Err(EBADF); }
      if !writable { return Err(EBADF); }
      Resolves();
      hide Sound, BodyChanged, Sized;
      r := owner.Truncate(ino, size);
    }

    /** Releases the inode once, however often the handle is closed. */
    method Close()
      requires Valid()
      modifies this`closed, owner`pins, owner`inodes, owner.tables
      ensures Valid() && closed
      ensures owner.tables.db.NameTable() == old(owner.tables.db.NameTable())
      ensures owner.pins == if old(closed) then old(owner.pins) else old(owner.pins) - multiset{ino}
      ensures !old(closed) ==> owner.Bodies() == BodiesLeft(old(owner.Bodies()), owner.tables.db.NameTable(), owner.pins)
      ensures owner.inodes == if old(closed) then old(owner.inodes)
                              else InodeNames.Left(old(owner.inodes), owner.tables.db.NameTable(), owner.pins)
      ensures old(closed) ==> owner.tables.db == old(owner.tables.db)
    {
      if closed { return; }
      closed := true;
      owner.Release(ino);
    }
  }
}
