/**
 * The `RawConfigParser` object that the store writer creates, fills from
 * the store file and then updates in place, one call at a time.
 */
module Parser {
  import Ini
  import opened FileSystem

  class ConfigParser {
    var defaults: Ini.Entries
    var names: seq<string>
    var sections: map<string, Ini.Entries>

    /** The store the parser currently holds. */
    function Contents(): Ini.Store
      reads this
    {
      Ini.Store(defaults, names, sections)
    }

    predicate Valid()
      reads this
    {
      Ini.WellFormed(Contents())
    }

    constructor ()
      ensures Valid() && Contents() == Ini.EMPTY
    {
      defaults, names, sections := map[], [], map[];
    }

    /** `read` into a fresh parser: the file's store, or nothing when the file is missing. */
    method Read(disk: Disk, filename: string)
      requires Valid() && Contents() == Ini.EMPTY
      requires disk.Valid()
      modifies this
      ensures Valid()
      ensures Contents() == disk.Load(filename)
    {
      var st := disk.Load(filename);
      defaults, names, sections := st.defaults, st.names, st.sections;
    }

    /** `has_section`: the defaults section never counts as a section. */
    method HasSection(name: string) returns (b: bool)
      requires Valid()
      ensures b <==> name in names
      ensures name == Ini.DEFAULT_SECTION ==> !b
    {
      b := name in sections;
    }

    /** `add_section` of a name that is neither present nor the defaults section. */
    method AddSection(name: string)
      requires Valid()
      requires name != Ini.DEFAULT_SECTION && name !in sections
      modifies this
      ensures Valid()
      ensures Contents() == Ini.AddSection(old(Contents()), name)
    {
      var st := Ini.AddSection(Contents(), name);
      names, sections := st.names, st.sections;
    }

    /**
     * `set` of one key: an empty name or the defaults section's name sets a
     * default; any other name must be an existing section.
     */
    method Set(section: string, key: string, value: string)
      requires Valid()
      requires Ini.AddressesDefaults(section) || section in sections
      modifies this
      ensures Valid()
      ensures names == old(names)
      ensures Ini.AddressesDefaults(section) ==> defaults == old(defaults)[key := value] && sections == old(sections)
      ensures !Ini.AddressesDefaults(section) ==>
        defaults == old(defaults) && sections == old(sections)[section := old(sections)[section][key := value]]
    {
      if section == "" || section == Ini.DEFAULT_SECTION {
        defaults := defaults[key := value];
      } else {
        sections := sections[section := sections[section][key := value]];
      }
    }
  }
}
