/**
 * The in-memory form of an INI credential store as Python's configparser
 * holds it: a defaults section kept apart, and the other sections in file
 * order, each a table from key to value.
 */
module Ini {

  /** The section name configparser reserves for its defaults. */
  const DEFAULT_SECTION := "DEFAULT"

  type Entries = map<string, string>

  /**
   * `names` lists the sections in the order they appear in the file;
   * `sections` gives each listed section its entries.
   */
  datatype Store = Store(defaults: Entries, names: seq<string>, sections: map<string, Entries>)

  /** The store read from a file that does not exist. */
  const EMPTY := Store(map[], [], map[])

  /** Section names that configparser's `set` sends to the defaults instead of to a section. */
  predicate AddressesDefaults(section: string)
  {
    section == "" || section == DEFAULT_SECTION
  }

  /** The names occurring in `s`. */
  function Elements(s: seq<string>): set<string>
  {
    set x | x in s
  }

  /** No name occurs twice in `s`. */
  predicate Distinct(s: seq<string>)
  {
    forall i, j :: 0 <= i < j < |s| ==> s[i] != s[j]
  }

  /**
   * A store configparser can hold: each section listed exactly once, the
   * list and the table naming the same sections, and the defaults section
   * never among the ordinary ones.
   */
  predicate WellFormed(st: Store)
  {
    && Distinct(st.names)
    && st.sections.Keys == Elements(st.names)
    && DEFAULT_SECTION !in st.sections
  }

  /** A list without repetitions has as many distinct names as entries. */
  lemma {:induction false} DistinctCount(s: seq<string>)
    requires Distinct(s)
    ensures |Elements(s)| == |s|
  {
    if s != [] {
      var init, last := s[..|s| - 1], s[|s| - 1];
      assert Distinct(init);
      DistinctCount(init);
      assert Elements(s) == Elements(init) + {last};
      assert last !in Elements(init);
    }
  }

  /** The section list of a well-formed store enumerates its table exactly: both have the same size. */
  lemma SectionCount(st: Store)
    requires WellFormed(st)
    ensures |st.sections| == |st.names|
  {
    DistinctCount(st.names);
  }

  /** `add_section`: a new, empty section at the end of the list. */
  function AddSection(st: Store, name: string): (r: Store)
    requires WellFormed(st)
    requires name != DEFAULT_SECTION && name !in st.sections
    ensures WellFormed(r)
    ensures r.names == st.names + [name]
    ensures r.sections.Keys == st.sections.Keys + {name}
    ensures r.sections[name] == map[]
    ensures forall n :: n in st.sections ==> r.sections[n] == st.sections[n]
    ensures r.defaults == st.defaults
  {
    var names := st.names + [name];
    assert forall i :: 0 <= i < |st.names| ==> names[i] == st.names[i];
    Store(st.defaults, names, st.sections[name := map[]])
  }
}
