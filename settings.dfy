/** CApplicationSettings of include/application_settings.h and
    src/application_settings.cpp: the global record of command-line choices.
    Paths are strings; `size_t` values are `SizeT`. */
module AppSettings {
  import opened Numerals

  /** The state of the settings object, as a value. */
  datatype Settings = Settings(
    verbose: bool,
    savePositions: string,
    linksRequired: bool,
    links: string,
    positionsRequired: bool,
    positions: string,
    weightsRequired: bool,
    weights: string,
    maxIteration: SizeT,
    intervalSave: SizeT)

  /** The member initialisers. */
  const Defaults: Settings := Settings(
    false, "./positions.bin",
    true, "./links.bin",
    false, "./positions.bin",
    false, "./weights.bin",
    10000, 10)

  class ApplicationSettings {
    var verbose: bool
    var savePositions: string
    var linksRequired: bool
    var links: string
    var positionsRequired: bool
    var positions: string
    var weightsRequired: bool
    var weights: string
    var maxIteration: SizeT
    var intervalSave: SizeT

    function View(): Settings
      reads this
    {
      Settings(verbose, savePositions, linksRequired, links, positionsRequired, positions,
               weightsRequired, weights, maxIteration, intervalSave)
    }

    /** Verbose output is off; only the links file is required; at most
        10000 iterations, a snapshot every 10. */
    constructor()
      ensures !verbose && savePositions == "./positions.bin"
      ensures linksRequired && links == "./links.bin"
      ensures !positionsRequired && positions == "./positions.bin"
      ensures !weightsRequired && weights == "./weights.bin"
      ensures maxIteration == 10000 && intervalSave == 10
      ensures View() == Defaults
    {
      verbose := false;
      savePositions := "./positions.bin";
      linksRequired := true;
      links := "./links.bin";
      positionsRequired := false;
      positions := "./positions.bin";
      weightsRequired := false;
      weights := "./weights.bin";
      maxIteration := 10000;
      intervalSave := 10;
    }

    method SetVerbose(b: bool)
      modifies this`verbose
      ensures View() == old(View()).(verbose := b)
    {
      verbose := b;
    }

    method SetSavePositionsFile(path: string)
      modifies this`savePositions
      ensures View() == old(View()).(savePositions := path)
    {
      savePositions := path;
    }

    /** Naming a links file also makes it required. */
    method SetLinksFile(path: string)
      modifies this`links, this`linksRequired
      ensures View() == old(View()).(links := path, linksRequired := true)
    {
      linksRequired := true;
      links := path;
    }

    method SetPositionsFile(path: string)
      modifies this`positions, this`positionsRequired
      ensures View() == old(View()).(positions := path, positionsRequired := true)
    {
      positionsRequired := true;
      positions := path;
    }

    method SetWeightsFile(path: string)
      modifies this`weights, this`weightsRequired
      ensures View() == old(View()).(weights := path, weightsRequired := true)
    {
      weightsRequired := true;
      weights := path;
    }

    method SetMaxIteration(n: SizeT)
      modifies this`maxIteration
      ensures View() == old(View()).(maxIteration := n)
    {
      maxIteration := n;
    }

    method SetIntervalSave(n: SizeT)
      modifies this`intervalSave
      ensures View() == old(View()).(intervalSave := n)
    {
      intervalSave := n;
    }
  }
}
