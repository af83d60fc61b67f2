/**
 * The state of the list screen's view model and the two operations that
 * change it: merging one fetched page, and searching the displayed list.
 * Each operation is one atomic step; the outcome of the page fetch is an
 * input, and the request the load makes is its output.
 */
module ListViewModel {
  import opened Repository
  import opened PokemonEntries

  class PokemonListViewModel {
    /** `PAGE_SIZE`: the number of entries requested per page. */
    const pageSize: int

    var curPage: int
    var pokemonList: seq<PokedexListEntry>
    var isLoading: bool
    var messageError: string
    var endReached: bool
    var cachedPokemonList: seq<PokedexListEntry>
    var isSearchStarting: bool
    var isSearching: bool

    /**
     * The page size is positive, the cursor never negative, and
     * `isSearchStarting`, which is only ever assigned `true`, stays `true`.
     */
    ghost predicate Valid()
      reads this
    {
      0 < pageSize && 0 <= curPage && isSearchStarting
    }

    /** The initial field values, then the first `loadPokemonPaginated` of `init`. */
    constructor (pageSize: int, firstResult: Resource<PokemonList>)
      requires 0 < pageSize
      requires firstResult.Success? ==> PageParses(firstResult.data)
      ensures Valid() && this.pageSize == pageSize
      ensures !isLoading && !isSearching && cachedPokemonList == []
      ensures firstResult.Success? ==>
        && curPage == 1
        && pokemonList == MapEntries(firstResult.data.results)
        && messageError == ""
        && endReached == (0 >= firstResult.data.count)
      ensures firstResult.Error? ==>
        && curPage == 0
        && pokemonList == []
        && messageError == firstResult.message
        && !endReached
    {
      this.pageSize := pageSize;
      curPage := 0;
      pokemonList := [];
      isLoading := false;
      messageError := "";
      endReached := false;
      cachedPokemonList := [];
      isSearchStarting := true;
      isSearching := false;
      new;
      var limit, offset := LoadPokemonPaginated(firstResult);
      if firstResult.Success? {
        ghost var page := MapEntries(firstResult.data.results);
        assert [] + page == page;
      }
    }

    /**
     * `loadPokemonPaginated`: requests `pageSize` entries at offset
     * `curPage * pageSize`, then merges `result`, the repository's answer to
     * that request. A success decides `endReached` from the cursor before the
     * increment, advances the cursor, clears the error and appends the mapped
     * entries; an error only records its message. Neither looks at the
     * search flags.
     */
    method LoadPokemonPaginated(result: Resource<PokemonList>) returns (limit: int, offset: int)
      requires Valid()
      requires result.Success? ==> PageParses(result.data)
      modifies this
      ensures Valid()
      ensures limit == pageSize && offset == old(curPage) * pageSize
      ensures !isLoading
      ensures cachedPokemonList == old(cachedPokemonList)
      ensures isSearchStarting == old(isSearchStarting) && isSearching == old(isSearching)
      ensures result.Success? ==>
        && curPage == old(curPage) + 1
        && messageError == ""
        && endReached == (old(curPage) * pageSize >= result.data.count)
        && pokemonList == old(pokemonList) + MapEntries(result.data.results)
      ensures result.Error? ==>
        && curPage == old(curPage)
        && messageError == result.message
        && endReached == old(endReached)
        && pokemonList == old(pokemonList)
    {
      isLoading := true;
      limit, offset := pageSize, curPage * pageSize;
      match result
      case Success(data) =>
        endReached := curPage * pageSize >= data.count;
        var pokedexEntries := MapEntries(data.results);
        curPage := curPage + 1;
        isLoading := false;
        messageError := "";
        pokemonList := pokemonList + pokedexEntries;
      case Error(message) =>
        isLoading := false;
        messageError := message;
    }

    /**
     * `searchPokemonList`: an empty query restores the cached list and leaves
     * search mode. Any other query filters the list chosen at entry and, since
     * `isSearchStarting` is always true, that list is the displayed one and it
     * also becomes the new cache.
     */
    method SearchPokemonList(query: string)
      requires Valid()
      modifies this
      ensures Valid()
      ensures curPage == old(curPage) && isLoading == old(isLoading)
      ensures messageError == old(messageError) && endReached == old(endReached)
      ensures query == [] ==>
        && pokemonList == old(cachedPokemonList)
        && cachedPokemonList == old(cachedPokemonList)
        && !isSearching
      ensures query != [] ==>
        && pokemonList == FilterEntries(old(pokemonList), query)
        && cachedPokemonList == old(pokemonList)
        && isSearching
    {
      var listToSearch := if isSearchStarting then pokemonList else cachedPokemonList;
      if query == [] {
        pokemonList := cachedPokemonList;
        isSearching := false;
        isSearchStarting := true;
        return;
      }
      var result := FilterEntries(listToSearch, query);
      if isSearchStarting {
        cachedPokemonList := pokemonList;
        isSearchStarting := true;
      }
      pokemonList := result;
      isSearching := true;
    }
  }

  /**
   * A load that fails and the retry that follows it request the same page:
   * the failure consumes no page.
   */
  method RetryAfterError(vm: PokemonListViewModel, message: string, retried: Resource<PokemonList>)
      returns (firstOffset: int, retryOffset: int)
    requires vm.Valid()
    requires retried.Success? ==> PageParses(retried.data)
    modifies vm
    ensures vm.Valid()
    ensures firstOffset == retryOffset == old(vm.curPage) * vm.pageSize
  {
    var limit;
    limit, firstOffset := vm.LoadPokemonPaginated(Error(message));
    limit, retryOffset := vm.LoadPokemonPaginated(retried);
  }

  /**
   * Two loads in a row: the list grows by the first page's entries, then by
   * the second's, and the cursor advances by two.
   */
  method LoadTwoPages(vm: PokemonListViewModel, first: PokemonList, second: PokemonList)
    requires vm.Valid() && PageParses(first) && PageParses(second)
    modifies vm
    ensures vm.Valid()
    ensures vm.curPage == old(vm.curPage) + 2
    ensures vm.pokemonList == old(vm.pokemonList) + MapEntries(first.results) + MapEntries(second.results)
    ensures vm.endReached == ((old(vm.curPage) + 1) * vm.pageSize >= second.count)
  {
    var limit, offset := vm.LoadPokemonPaginated(Success(first));
    limit, offset := vm.LoadPokemonPaginated(Success(second));
  }

  /**
   * Two searches, then an empty query. The second search narrows the first
   * one's result, and the empty query restores that first result rather than
   * the list from before the searches, because the second search re-took the
   * cache.
   */
  method SearchTwiceThenClear(vm: PokemonListViewModel, first: string, second: string)
    requires vm.Valid() && first != [] && second != []
    modifies vm
    ensures vm.Valid()
    ensures vm.pokemonList == FilterEntries(old(vm.pokemonList), first)
    ensures !vm.isSearching
  {
    vm.SearchPokemonList(first);
    vm.SearchPokemonList(second);
    assert vm.pokemonList == FilterEntries(FilterEntries(old(vm.pokemonList), first), second);
    vm.SearchPokemonList("");
  }

  /**
   * The retry button during a search. A load fails, a search starts, the retry
   * (offered whenever the error message is non-empty, whatever the search
   * state) succeeds, and the query is cleared. The retried page appears,
   * unfiltered, after the search results (`shownDuringSearch`); clearing the
   * query restores the cache from before the search, which drops that page,
   * and the cursor has already moved past it, so no later load requests it
   * again.
   */
  method RetryDuringSearch(vm: PokemonListViewModel, message: string, query: string, retried: PokemonList)
      returns (retryOffset: int, shownDuringSearch: seq<PokedexListEntry>)
    requires vm.Valid() && message != [] && query != [] && PageParses(retried)
    modifies vm
    ensures vm.Valid()
    ensures retryOffset == old(vm.curPage) * vm.pageSize
    ensures shownDuringSearch == FilterEntries(old(vm.pokemonList), query) + MapEntries(retried.results)
    ensures vm.curPage == old(vm.curPage) + 1
    ensures vm.pokemonList == old(vm.pokemonList)
    ensures vm.messageError == "" && !vm.isSearching
  {
    var limit, offset := vm.LoadPokemonPaginated(Error(message));
    vm.SearchPokemonList(query);
    assert vm.messageError == message && vm.isSearching;
    limit, retryOffset := vm.LoadPokemonPaginated(Success(retried));
    assert vm.isSearching;
    shownDuringSearch := vm.pokemonList;
    vm.SearchPokemonList("");
  }

  /**
   * A page fetch whose API call throws: the repository's fallback message
   * becomes the error shown, and the list and the cursor stay as they were.
   */
  method LoadWhenCallThrows(vm: PokemonListViewModel) returns (offset: int)
    requires vm.Valid()
    modifies vm
    ensures vm.Valid()
    ensures offset == old(vm.curPage) * vm.pageSize
    ensures vm.messageError == UnknownError
    ensures vm.pokemonList == old(vm.pokemonList) && vm.curPage == old(vm.curPage)
  {
    var limit;
    limit, offset := vm.LoadPokemonPaginated(GetPokemonList(Threw));
  }

  /** One search followed by an empty query gives back the list from before the search. */
  method SearchThenClear(vm: PokemonListViewModel, query: string)
    requires vm.Valid() && query != []
    modifies vm
    ensures vm.Valid()
    ensures vm.pokemonList == old(vm.pokemonList) && vm.cachedPokemonList == old(vm.pokemonList)
    ensures !vm.isSearching
  {
    vm.SearchPokemonList(query);
    vm.SearchPokemonList("");
  }

  /**
   * The end-of-list scenario with a page size of 10 and a catalog of 15:
   * the end test uses the cursor before each increment, so the end is reported
   * only on the third load, which returns no new entries.
   */
  method EndDetectionScenario(vm: PokemonListViewModel, page1: seq<ResultItem>, page2: seq<ResultItem>)
    requires vm.Valid() && vm.pageSize == 10 && vm.curPage == 0
    requires PageParses(PokemonList(15, page1)) && PageParses(PokemonList(15, page2))
    modifies vm
    ensures vm.Valid()
    ensures vm.curPage == 3 && vm.endReached
    ensures vm.pokemonList == old(vm.pokemonList) + MapEntries(page1) + MapEntries(page2)
  {
    var limit, offset := vm.LoadPokemonPaginated(Success(PokemonList(15, page1)));
    assert !vm.endReached && offset == 0;
    limit, offset := vm.LoadPokemonPaginated(Success(PokemonList(15, page2)));
    assert !vm.endReached && offset == 10;
    limit, offset := vm.LoadPokemonPaginated(Success(PokemonList(15, [])));
    assert offset == 20;
    assert MapEntries([]) == [];
  }
}
