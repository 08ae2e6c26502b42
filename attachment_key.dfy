/**
 * The attachment key deriver: `convert_attachment_name`
 * (ios_backup_message_archiver.py lines 180-206). An attachment's path on the
 * device is rewritten into the backup's `MediaDomain-` form and hashed; the
 * hex digest is the attachment's file name in the backup store.
 */
module AttachmentKey {
  import opened Text

  const DevicePrefix: string := "/var/mobile/"
  const HomePrefix: string := "~/"
  const MediaDomain: string := "MediaDomain-"

  /** The characters `lstrip('/var/mobile/')` removes (line 198): those of the prefix, as a set. */
  const DeviceChars: set<char> := {'/', 'v', 'a', 'r', 'm', 'o', 'b', 'i', 'l', 'e'}

  /** The characters `lstrip('~/')` removes (line 200). */
  const HomeChars: set<char> := {'~', '/'}

  /** The two sets are exactly the characters of the two prefixes. */
  lemma StripSetsArePrefixChars()
    ensures forall c :: c in DeviceChars <==> c in DevicePrefix
    ensures forall c :: c in HomeChars <==> c in HomePrefix
    ensures AllIn(DevicePrefix, DeviceChars) && AllIn(HomePrefix, HomeChars)
  {
  }

  /**
   * The string that gets hashed (lines 197-203). A device path or a home path
   * becomes `MediaDomain-` followed by what is left once the longest leading run
   * of the prefix's CHARACTERS is gone (which may eat into the path after the
   * prefix); any other path becomes the empty string.
   */
  function HashInput(name: string): (r: string)
    ensures StartsWith(name, DevicePrefix) ==>
      StartsWith(r, MediaDomain) && StrippedRun(name, r[|MediaDomain|..], DeviceChars)
    ensures !StartsWith(name, DevicePrefix) && StartsWith(name, HomePrefix) ==>
      StartsWith(r, MediaDomain) && StrippedRun(name, r[|MediaDomain|..], HomeChars)
    ensures !StartsWith(name, DevicePrefix) && !StartsWith(name, HomePrefix) ==> r == []
  {
    if StartsWith(name, DevicePrefix) then
      LStripIsStrippedRun(name, DeviceChars);
      assert (MediaDomain + LStrip(name, DeviceChars))[|MediaDomain|..] == LStrip(name, DeviceChars);
      MediaDomain + LStrip(name, DeviceChars)
    else if StartsWith(name, HomePrefix) then
      LStripIsStrippedRun(name, HomeChars);
      assert (MediaDomain + LStrip(name, HomeChars))[|MediaDomain|..] == LStrip(name, HomeChars);
      MediaDomain + LStrip(name, HomeChars)
    else
      []
  }

  /** The derived backup file name, and whether the path was reported as bad data (line 202). */
  datatype Converted = Converted(hashed: string, warned: bool)

  /**
   * `convert_attachment_name`: the result is always the digest of `HashInput`;
   * `sha1` stands for `hashlib.sha1(...).hexdigest()`. The warning is raised
   * exactly when the string hashed is empty, that is when neither prefix matched.
   */
  function ConvertAttachmentName(name: string, sha1: string -> string): (r: Converted)
    ensures r.hashed == sha1(HashInput(name))
    ensures r.warned <==> HashInput(name) == []
    ensures r.warned <==> !StartsWith(name, DevicePrefix) && !StartsWith(name, HomePrefix)
  {
    if StartsWith(name, DevicePrefix) || StartsWith(name, HomePrefix) then
      Converted(sha1(HashInput(name)), false)
    else
      Converted(sha1([]), true)
  }

  /**
   * When the path after `/var/mobile/` does not itself start with one of the
   * prefix's characters, the character-set strip agrees with removing the exact
   * prefix, as in the usual `/var/mobile/Library/...` paths.
   */
  lemma {:induction false} DeviceStripIsExact(rest: string)
    requires rest == [] || rest[0] !in DeviceChars
    ensures HashInput(DevicePrefix + rest) == MediaDomain + rest
  {
    assert (DevicePrefix + rest)[..|DevicePrefix|] == DevicePrefix;
    StripSetsArePrefixChars();
    LStripSkips(DevicePrefix, rest, DeviceChars);
  }

  /** The same for `~/` paths. */
  lemma {:induction false} HomeStripIsExact(rest: string)
    requires rest == [] || rest[0] !in HomeChars
    ensures HashInput(HomePrefix + rest) == MediaDomain + rest
  {
    assert (HomePrefix + rest)[..|HomePrefix|] == HomePrefix;
    assert !StartsWith(HomePrefix + rest, DevicePrefix) by {
      if |DevicePrefix| <= |HomePrefix + rest| {
        assert (HomePrefix + rest)[0] == '~' != DevicePrefix[0];
      }
    }
    StripSetsArePrefixChars();
    LStripSkips(HomePrefix, rest, HomeChars);
  }

  /**
   * When the path after `/var/mobile/` does start with one of the prefix's
   * characters, more than the prefix is stripped: the hashed string is NOT
   * `MediaDomain-` plus that path, so the derived key is not the one the exact
   * rewrite describes.
   */
  lemma {:induction false} DeviceStripOvershoots(rest: string)
    requires rest != [] && rest[0] in DeviceChars
    ensures |HashInput(DevicePrefix + rest)| < |MediaDomain + rest|
  {
    assert (DevicePrefix + rest)[..|DevicePrefix|] == DevicePrefix;
    StripSetsArePrefixChars();
    LStripSkips(DevicePrefix, rest, DeviceChars);
  }

  /** The same for `~/` paths: `~/~/x` hashes `MediaDomain-x`. */
  lemma {:induction false} HomeStripOvershoots(rest: string)
    requires rest != [] && rest[0] in HomeChars
    ensures |HashInput(HomePrefix + rest)| < |MediaDomain + rest|
  {
    assert (HomePrefix + rest)[..|HomePrefix|] == HomePrefix;
    assert !StartsWith(HomePrefix + rest, DevicePrefix) by {
      if |DevicePrefix| <= |HomePrefix + rest| {
        assert (HomePrefix + rest)[0] == '~' != DevicePrefix[0];
      }
    }
    StripSetsArePrefixChars();
    LStripSkips(HomePrefix, rest, HomeChars);
  }

  /**
   * A device path under `/var/mobile/lib/` loses its `lib/` too: `/var/mobile/lib/x`
   * hashes `MediaDomain-x`, not `MediaDomain-lib/x`.
   */
  lemma {:induction false} DeviceStripEatsLib(tail: string)
    requires tail == [] || tail[0] !in DeviceChars
    ensures HashInput(DevicePrefix + "lib/" + tail) == MediaDomain + tail
  {
    var name := DevicePrefix + "lib/" + tail;
    assert StartsWith(name, DevicePrefix) by {
      assert name == DevicePrefix + ("lib/" + tail);
      assert name[..|DevicePrefix|] == DevicePrefix;
    }
    assert LStrip(name, DeviceChars) == tail by {
      assert AllIn(DevicePrefix + "lib/", DeviceChars) by {
        StripSetsArePrefixChars();
      }
      LStripSkips(DevicePrefix + "lib/", tail, DeviceChars);
    }
  }
}
